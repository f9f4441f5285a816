/**
 * The Python `str` operations the spiders use: strip, rstrip, split,
 * partition, replace, `in`, lower, isdigit, int() and str() of integers.
 */
module Strings {
  import opened Values

  /** The characters for which Python's `str.isspace()` holds; `strip()`
      removes exactly these: tab to carriage return, the four separator
      controls and space, NEL, no-break space, ogham space mark, the
      typographic spaces U+2000 to U+200A, line and paragraph separators,
      narrow no-break space, medium mathematical space, ideographic space. */
  predicate IsSpace(c: char) {
    || ('\t' <= c <= '\r')
    || ('\U{1C}' <= c <= ' ')
    || c == '\U{85}' || c == '\U{A0}' || c == '\U{1680}'
    || ('\U{2000}' <= c <= '\U{200A}')
    || c == '\U{2028}' || c == '\U{2029}' || c == '\U{202F}' || c == '\U{205F}' || c == '\U{3000}'
  }

  /** An ASCII decimal digit (what `\d` and `[0-9]` match in this model). */
  predicate IsDigit(c: char) { '0' <= c <= '9' }

  predicate AllSpaces(s: string) { forall i :: 0 <= i < |s| ==> IsSpace(s[i]) }

  predicate AllDigits(s: string) { forall i :: 0 <= i < |s| ==> IsDigit(s[i]) }

  /** Python's `s.isdigit()` on ASCII: non-empty and only digits. */
  predicate IsDecimal(s: string) { s != [] && AllDigits(s) }

  /** Neither end of `s` is whitespace. */
  predicate IsStripped(s: string) { s == [] || (!IsSpace(s[0]) && !IsSpace(s[|s| - 1])) }

  predicate StartsWith(s: string, p: string) { |p| <= |s| && s[..|p|] == p }

  predicate EndsWith(s: string, p: string) { |p| <= |s| && s[|s| - |p|..] == p }

  /** `t` occurs in `s` at index `i`. */
  predicate OccursAt(s: string, t: string, i: int) {
    0 <= i && i + |t| <= |s| && s[i..i + |t|] == t
  }

  /** An occurrence that ends inside `a` is one of `a + b` and of `a`
      alike. */
  lemma OccursInPrefix(a: string, b: string, t: string, i: int)
    ensures 0 <= i && i + |t| <= |a| ==> (OccursAt(a + b, t, i) <==> OccursAt(a, t, i))
  {
    if 0 <= i && i + |t| <= |a| {
      assert (a + b)[i..i + |t|] == a[i..i + |t|];
    }
  }

  /** Python's `t in s`. */
  predicate Contains(s: string, t: string) {
    exists i | 0 <= i <= |s| - |t| :: OccursAt(s, t, i)
  }

  /** Python's `s.lstrip()`. */
  function LStrip(s: string): (r: string)
    ensures |r| <= |s| && r == s[|s| - |r|..]
    ensures AllSpaces(s[..|s| - |r|])
    ensures r == [] || !IsSpace(r[0])
  {
    if s != [] && IsSpace(s[0]) then
      var t := LStrip(s[1..]);
      assert s[..|s| - |t|] == [s[0]] + s[1..][..|s[1..]| - |t|];
      t
    else s
  }

  /** Python's `s.rstrip()`. */
  function RStrip(s: string): (r: string)
    ensures |r| <= |s| && r == s[..|r|]
    ensures AllSpaces(s[|r|..])
    ensures r == [] || !IsSpace(r[|r| - 1])
  {
    if s != [] && IsSpace(s[|s| - 1]) then
      var t := RStrip(s[..|s| - 1]);
      assert s[|t|..] == s[..|s| - 1][|t|..] + [s[|s| - 1]];
      t
    else s
  }

  /** Python's `s.strip()`: `s` without its leading and trailing whitespace
      (StripOfPadded says which string that is). */
  function Strip(s: string): (r: string)
    ensures IsStripped(r)
    ensures |r| <= |s|
  {
    RStrip(LStrip(s))
  }

  /** What `strip()` removes is whitespace at the two ends and nothing else. */
  lemma StripIsInfix(s: string)
    ensures OccursAt(s, Strip(s), |s| - |LStrip(s)|)
    ensures AllSpaces(s[..|s| - |LStrip(s)|])
    ensures AllSpaces(s[|s| - |LStrip(s)| + |Strip(s)|..])
  {
    StripKept(s);
    StripDroppedRight(s);
  }

  /** A character absent from `s` is absent from `s.strip()`. */
  lemma StripKeepsOut(s: string, c: char)
    requires c !in s
    ensures c !in Strip(s)
  {
    StripKept(s);
    var k := |s| - |LStrip(s)|;
    assert Strip(s) == s[k..k + |Strip(s)|];
  }

  /** `strip()` keeps a slice of its input, starting where `lstrip()`
      stopped. */
  lemma {:induction false} StripKept(s: string)
    ensures OccursAt(s, Strip(s), |s| - |LStrip(s)|)
  {
    PrefixOfSuffix(s, LStrip(s), Strip(s));
  }

  /** A prefix `r` of a suffix `l` of `s` is the slice of `s` where `l`
      starts. */
  lemma PrefixOfSuffix(s: string, l: string, r: string)
    requires |l| <= |s| && l == s[|s| - |l|..]
    requires |r| <= |l| && r == l[..|r|]
    ensures OccursAt(s, r, |s| - |l|)
  {
  }

  /** What `strip()` drops on the right is whitespace. */
  lemma StripDroppedRight(s: string)
    ensures |s| - |LStrip(s)| + |Strip(s)| <= |s|
    ensures AllSpaces(s[|s| - |LStrip(s)| + |Strip(s)|..])
  {
    SpacesAfterPrefix(s, LStrip(s), Strip(s));
  }

  /** Whitespace after a prefix `r` of a suffix `l` of `s` is whitespace at
      the end of `s`. */
  lemma SpacesAfterPrefix(s: string, l: string, r: string)
    requires |l| <= |s| && l == s[|s| - |l|..]
    requires |r| <= |l| && AllSpaces(l[|r|..])
    ensures AllSpaces(s[|s| - |l| + |r|..])
  {
    assert s[|s| - |l| + |r|..] == l[|r|..];
  }

  lemma {:induction false} LStripOfSpaces(p: string, m: string)
    requires AllSpaces(p) && (m == [] || !IsSpace(m[0]))
    ensures LStrip(p + m) == m
    decreases |p|
  {
    if p != [] {
      var s := p + m;
      assert s[0] == p[0] && IsSpace(s[0]);
      assert s[1..] == p[1..] + m;
      LStripOfSpaces(p[1..], m);
      assert LStrip(s) == LStrip(s[1..]);
    } else {
      assert p + m == m;
    }
  }

  lemma {:induction false} RStripOfSpaces(m: string, q: string)
    requires AllSpaces(q) && (m == [] || !IsSpace(m[|m| - 1]))
    ensures RStrip(m + q) == m
    decreases |q|
  {
    if q != [] {
      var s := m + q;
      assert s[|s| - 1] == q[|q| - 1] && IsSpace(s[|s| - 1]);
      assert s[..|s| - 1] == m + q[..|q| - 1];
      RStripOfSpaces(m, q[..|q| - 1]);
      assert RStrip(s) == RStrip(s[..|s| - 1]);
    } else {
      assert m + q == m;
    }
  }

  /** Strip is determined by what it keeps: a stripped middle between two
      runs of whitespace is exactly what `strip()` returns. */
  lemma {:induction false} StripOfPadded(p: string, m: string, q: string)
    requires AllSpaces(p) && AllSpaces(q) && IsStripped(m)
    ensures Strip(p + m + q) == m
  {
    if m == [] {
      assert p + m + q == p + q;
      assert AllSpaces(p + q);
      LStripOfSpaces(p + q, []);
      assert p + q + [] == p + q;
      assert LStrip(p + q) == [];
    } else {
      assert p + m + q == p + (m + q);
      LStripOfSpaces(p, m + q);
      RStripOfSpaces(m, q);
    }
  }

  /** `strip()` is idempotent, and leaves a stripped string alone. */
  lemma StripStripped(s: string)
    requires IsStripped(s)
    ensures Strip(s) == s
  {
    StripOfPadded([], s, []);
    assert [] + s + [] == s;
  }

  lemma StripIdempotent(s: string)
    ensures Strip(Strip(s)) == Strip(s)
  {
    StripStripped(Strip(s));
  }

  /** Python's `s.rstrip(c)` for a single character `c`. */
  function RStripChar(s: string, c: char): (r: string)
    ensures |r| <= |s| && r == s[..|r|]
    ensures forall i :: |r| <= i < |s| ==> s[i] == c
    ensures r == [] || r[|r| - 1] != c
  {
    if s != [] && s[|s| - 1] == c then RStripChar(s[..|s| - 1], c) else s
  }

  /** One trailing `c` after a text that does not end with `c` is dropped. */
  lemma RStripCharOne(s: string, c: char)
    requires s == [] || s[|s| - 1] != c
    ensures RStripChar(s + [c], c) == s
  {
    assert (s + [c])[..|s|] == s;
  }

  lemma RStripCharIdempotent(s: string, c: char)
    ensures RStripChar(RStripChar(s, c), c) == RStripChar(s, c)
  {
  }

  /** Python's `s.find(t)`: the first index at which `t` occurs, or -1
      (FindSpec). */
  function Find(s: string, t: string): (r: int)
    ensures r == -1 || 0 <= r <= |s| - |t|
    decreases |s|
  {
    if |s| < |t| then -1
    else if s[..|t|] == t then 0
    else
      var k := Find(s[1..], t);
      if k == -1 then -1 else k + 1
  }

  lemma OccursAtShift(s: string, t: string, j: int)
    requires 1 <= j && s != []
    ensures OccursAt(s, t, j) == OccursAt(s[1..], t, j - 1)
  {
    if j + |t| <= |s| {
      var a, b := s[j..j + |t|], s[1..][j - 1..j - 1 + |t|];
      forall k | 0 <= k < |t|
        ensures a[k] == b[k]
      {
        assert s[1..][j - 1 + k] == s[j + k];
      }
      assert a == b;
    }
  }

  lemma {:induction false} FindSpec(s: string, t: string)
    ensures Find(s, t) == -1 || OccursAt(s, t, Find(s, t))
    ensures Find(s, t) == -1 <==> !Contains(s, t)
    ensures forall j :: 0 <= j < Find(s, t) ==> !OccursAt(s, t, j)
    decreases |s|
  {
    if |s| < |t| {
    } else if s[..|t|] == t {
      assert OccursAt(s, t, 0);
    } else {
      FindSpec(s[1..], t);
      assert !OccursAt(s, t, 0);
      forall j | 1 <= j <= |s| - |t|
        ensures OccursAt(s, t, j) == OccursAt(s[1..], t, j - 1)
      {
        OccursAtShift(s, t, j);
      }
      if Contains(s, t) {
        var j :| 0 <= j <= |s| - |t| && OccursAt(s, t, j);
        assert OccursAt(s[1..], t, j - 1);
      }
      if Contains(s[1..], t) {
        var j :| 0 <= j <= |s[1..]| - |t| && OccursAt(s[1..], t, j);
        assert OccursAt(s, t, j + 1);
      }
    }
  }

  /** Python's `s.split(sep)` for a non-empty separator. */
  function Split(s: string, sep: string): (r: seq<string>)
    requires sep != []
    ensures |r| >= 1
    decreases |s|
  {
    if |s| < |sep| then [s]
    else if s[..|sep|] == sep then [""] + Split(s[|sep|..], sep)
    else
      var t := Split(s[1..], sep);
      [[s[0]] + t[0]] + t[1..]
  }

  /** Python's `sep.join(pieces)`. */
  function Join(pieces: seq<string>, sep: string): string {
    if pieces == [] then ""
    else if |pieces| == 1 then pieces[0]
    else pieces[0] + sep + Join(pieces[1..], sep)
  }

  /** Splitting loses nothing: joining the pieces back gives the input. */
  lemma {:induction false} JoinSplit(s: string, sep: string)
    requires sep != []
    ensures Join(Split(s, sep), sep) == s
    decreases |s|
  {
    if |s| < |sep| {
    } else if s[..|sep|] == sep {
      var t := Split(s[|sep|..], sep);
      JoinSplit(s[|sep|..], sep);
      assert Split(s, sep) == [""] + t;
      assert ([""] + t)[1..] == t;
      assert s == "" + sep + s[|sep|..];
    } else {
      var t := Split(s[1..], sep);
      JoinSplit(s[1..], sep);
      var r := [[s[0]] + t[0]] + t[1..];
      assert Split(s, sep) == r;
      if |t| == 1 {
        assert Join(r, sep) == [s[0]] + t[0];
        assert Join(t, sep) == t[0];
      } else {
        assert r[1..] == t[1..];
        assert Join(t, sep) == t[0] + sep + Join(t[1..], sep);
        assert Join(r, sep) == [s[0]] + t[0] + sep + Join(t[1..], sep);
      }
      assert s == [s[0]] + s[1..];
    }
  }

  /** `s.split(sep)[0]` is everything before the first occurrence of `sep`,
      or all of `s` when `sep` does not occur. */
  lemma {:induction false} SplitHead(s: string, sep: string)
    requires sep != []
    ensures Split(s, sep)[0] == if Find(s, sep) == -1 then s else s[..Find(s, sep)]
    decreases |s|
  {
    if |s| < |sep| {
    } else if s[..|sep|] == sep {
    } else {
      SplitHead(s[1..], sep);
    }
  }

  /** The first piece of `s.split(sep)` starts `s`; when `sep` occurs, the
      piece holds no `sep` and one follows it; otherwise it is all of `s`. */
  lemma SplitHeadShape(s: string, sep: string)
    requires sep != []
    ensures var m := Split(s, sep)[0];
      && StartsWith(s, m)
      && (Contains(s, sep) ==> OccursAt(s, sep, |m|) && !Contains(m, sep))
      && (!Contains(s, sep) ==> m == s)
  {
    SplitHead(s, sep);
    FindSpec(s, sep);
    if Contains(s, sep) {
      NoOccurrenceBefore(s, sep, Find(s, sep));
    }
  }

  /** A prefix of `s` that ends before the first occurrence of `t` does not
      contain `t`. */
  lemma NoOccurrenceBefore(s: string, t: string, k: int)
    requires t != [] && 0 <= k <= |s|
    requires forall j :: 0 <= j < k ==> !OccursAt(s, t, j)
    ensures !Contains(s[..k], t)
  {
    var m := s[..k];
    assert m + s[k..] == s;
    forall j | 0 <= j <= |m| - |t|
      ensures !OccursAt(m, t, j)
    {
      OccursInPrefix(m, s[k..], t, j);
    }
  }

  /** `s.split(sep)` has a second piece exactly when `sep` occurs in `s`,
      and then it starts right after the first occurrence. */
  lemma {:induction false} SplitTail(s: string, sep: string)
    requires sep != []
    ensures |Split(s, sep)| >= 2 <==> Contains(s, sep)
    ensures Contains(s, sep) ==> Split(s, sep)[1..] == Split(s[Find(s, sep) + |sep|..], sep)
    decreases |s|
  {
    FindSpec(s, sep);
    if |s| < |sep| {
    } else if s[..|sep|] == sep {
      assert OccursAt(s, sep, 0);
    } else {
      SplitTail(s[1..], sep);
      FindSpec(s[1..], sep);
      var t := Split(s[1..], sep);
      assert Split(s, sep) == [[s[0]] + t[0]] + t[1..];
      assert (Find(s, sep) == -1) == (Find(s[1..], sep) == -1);
      if Contains(s, sep) {
        assert Find(s, sep) == Find(s[1..], sep) + 1;
        assert s[Find(s, sep) + |sep|..] == s[1..][Find(s[1..], sep) + |sep|..];
      }
    }
  }

  /** The last piece of `s.split(c)` for one character `c`: the text after the
      last `c`, or all of `s` when `c` does not occur. */
  lemma SplitLast(s: string, c: char)
    ensures var last := Split(s, [c])[|Split(s, [c])| - 1];
      && c !in last
      && EndsWith(s, last)
      && (|last| < |s| ==> s[|s| - |last| - 1] == c)
      && (|Split(s, [c])| == 1 ==> last == s)
      && (|Split(s, [c])| >= 2 ==> |last| < |s|)
  {
    SplitLastPiece(s, c);
    SplitLastAfterSep(s, c);
  }

  /** The last piece of `s.split(c)` is a suffix of `s` without `c`; it is
      all of `s` exactly when there is one piece. */
  lemma {:induction false} SplitLastPiece(s: string, c: char)
    ensures var last := Split(s, [c])[|Split(s, [c])| - 1];
      && c !in last
      && EndsWith(s, last)
      && (|Split(s, [c])| == 1 ==> last == s)
      && (|Split(s, [c])| >= 2 ==> |last| < |s|)
    decreases |s|
  {
    if |s| >= 1 {
      var r, u := Split(s, [c]), s[1..];
      var t := Split(u, [c]);
      var tl := t[|t| - 1];
      SplitLastPiece(u, c);
      EndsWithTail(s, tl);
      if s[..1] == [c] {
        assert r == [""] + t;
        assert r[|r| - 1] == tl;
      } else {
        assert s[..1] == [s[0]];
        assert r == [[s[0]] + t[0]] + t[1..];
        if |t| == 1 {
          JoinSplit(u, [c]);
          assert tl == u;
          assert r[|r| - 1] == [s[0]] + tl == s;
        } else {
          assert r[|r| - 1] == tl;
        }
      }
    }
  }

  /** A last piece shorter than `s` comes right after a `c`. */
  lemma {:induction false} SplitLastAfterSep(s: string, c: char)
    ensures var last := Split(s, [c])[|Split(s, [c])| - 1];
      |last| < |s| ==> s[|s| - |last| - 1] == c
    decreases |s|
  {
    if |s| >= 1 {
      var r, u := Split(s, [c]), s[1..];
      var t := Split(u, [c]);
      var tl := t[|t| - 1];
      SplitLastPiece(u, c);
      SplitLastAfterSep(u, c);
      EndsWithTail(s, tl);
      if s[..1] == [c] {
        assert r == [""] + t;
        assert r[|r| - 1] == tl;
        if |tl| == |u| {
          assert s[|s| - |tl| - 1] == s[0];
        }
      } else {
        assert s[..1] == [s[0]];
        assert r == [[s[0]] + t[0]] + t[1..];
        if |t| == 1 {
          JoinSplit(u, [c]);
          assert r[|r| - 1] == [s[0]] + tl;
        } else {
          assert r[|r| - 1] == tl;
        }
      }
    }
  }

  /** A suffix of `s[1..]` is a suffix of `s`, at the same distance from
      the end. */
  lemma EndsWithTail(s: string, x: string)
    requires |s| >= 1 && EndsWith(s[1..], x)
    ensures EndsWith(s, x)
    ensures |x| < |s| - 1 ==> s[|s| - |x| - 1] == s[1..][|s| - 1 - |x| - 1]
  {
    assert s[|s| - |x|..] == s[1..][|s| - 1 - |x|..];
  }

  /** Python's `s.partition(sep)`: the text before the first `sep`, and the
      text after it (empty when `sep` does not occur). */
  function Partition(s: string, sep: string): (r: (string, string))
    requires sep != []
    ensures Find(s, sep) == -1 ==> r == (s, "")
    ensures Find(s, sep) >= 0 ==> s == r.0 + sep + r.1 && r.0 == s[..Find(s, sep)]
  {
    var k := Find(s, sep);
    FindSpec(s, sep);
    if k == -1 then (s, "") else (s[..k], s[k + |sep|..])
  }

  /** Python's `s.replace(pat, rep)`: every non-overlapping occurrence of `pat`,
      scanning from the left, replaced by `rep`. */
  function ReplaceAll(s: string, pat: string, rep: string): string
    requires pat != []
    decreases |s|
  {
    if |s| < |pat| then s
    else if s[..|pat|] == pat then rep + ReplaceAll(s[|pat|..], pat, rep)
    else [s[0]] + ReplaceAll(s[1..], pat, rep)
  }

  /** `s.replace(pat, rep)` is `rep.join(s.split(pat))`, as Python documents. */
  lemma {:induction false} ReplaceAllIsSplitJoin(s: string, pat: string, rep: string)
    requires pat != []
    ensures ReplaceAll(s, pat, rep) == Join(Split(s, pat), rep)
    decreases |s|
  {
    if |s| < |pat| {
    } else if s[..|pat|] == pat {
      ReplaceAllIsSplitJoin(s[|pat|..], pat, rep);
      var t := Split(s[|pat|..], pat);
      assert Split(s, pat) == [""] + t;
      assert ([""] + t)[1..] == t;
    } else {
      ReplaceAllIsSplitJoin(s[1..], pat, rep);
      var t := Split(s[1..], pat);
      var r := [[s[0]] + t[0]] + t[1..];
      assert Split(s, pat) == r;
      if |t| > 1 {
        assert r[1..] == t[1..];
      }
    }
  }

  /** Replacing leaves a string without occurrences of `pat` unchanged. */
  lemma {:induction false} ReplaceAllAbsent(s: string, pat: string, rep: string)
    requires pat != [] && !Contains(s, pat)
    ensures ReplaceAll(s, pat, rep) == s
    decreases |s|
  {
    if |s| >= |pat| {
      assert !OccursAt(s, pat, 0);
      forall j | 0 <= j <= |s[1..]| - |pat| ensures !OccursAt(s[1..], pat, j) {
        OccursAtShift(s, pat, j + 1);
      }
      ReplaceAllAbsent(s[1..], pat, rep);
    }
  }

  /** A prefix in which no occurrence of `pat` starts is copied unchanged. */
  lemma {:induction false} ReplaceAllPrefix(a: string, b: string, pat: string, rep: string)
    requires pat != []
    requires forall i :: 0 <= i < |a| ==> !OccursAt(a + b, pat, i)
    ensures ReplaceAll(a + b, pat, rep) == a + ReplaceAll(b, pat, rep)
    decreases |a|
  {
    if a == [] {
      assert a + b == b;
    } else {
      var s := a + b;
      assert !OccursAt(s, pat, 0);
      assert s[1..] == a[1..] + b;
      forall i | 0 <= i < |a[1..]|
        ensures !OccursAt(a[1..] + b, pat, i)
      {
        OccursAtShift(s, pat, i + 1);
      }
      ReplaceAllPrefix(a[1..], b, pat, rep);
      ReplaceAllSkip(s, pat, rep);
      var tail := ReplaceAll(b, pat, rep);
      assert [a[0]] + (a[1..] + tail) == a + tail;
    }
  }

  /** Where no occurrence of `pat` starts, the first character is copied. */
  lemma ReplaceAllSkip(s: string, pat: string, rep: string)
    requires pat != [] && s != [] && !OccursAt(s, pat, 0)
    ensures ReplaceAll(s, pat, rep) == [s[0]] + ReplaceAll(s[1..], pat, rep)
  {
    if |s| < |pat| {
      assert [s[0]] + s[1..] == s;
    }
  }

  /** Replacing an occurring `pat` leaves the replacement in the result. */
  lemma {:induction false} ReplaceAllIntroduces(s: string, pat: string, rep: string)
    requires pat != [] && Contains(s, pat)
    ensures Contains(ReplaceAll(s, pat, rep), rep)
    decreases |s|
  {
    var i :| 0 <= i <= |s| - |pat| && OccursAt(s, pat, i);
    if s[..|pat|] == pat {
      assert OccursAt(ReplaceAll(s, pat, rep), rep, 0);
    } else {
      assert i >= 1;
      OccursAtShift(s, pat, i);
      ReplaceAllIntroduces(s[1..], pat, rep);
      var tail := ReplaceAll(s[1..], pat, rep);
      var j :| 0 <= j <= |tail| - |rep| && OccursAt(tail, rep, j);
      assert ([s[0]] + tail)[j + 1..j + 1 + |rep|] == tail[j..j + |rep|];
      assert OccursAt([s[0]] + tail, rep, j + 1);
    }
  }

  /** For one character, Python's `c in s` on strings is membership. */
  lemma ContainsChar(s: string, c: char)
    ensures Contains(s, [c]) <==> c in s
  {
    if c in s {
      var i :| 0 <= i < |s| && s[i] == c;
      assert OccursAt(s, [c], i);
    }
    if Contains(s, [c]) {
      var i :| 0 <= i <= |s| - 1 && OccursAt(s, [c], i);
      assert s[i] == c;
    }
  }

  /** Whatever contains `a + b` contains `a`. */
  lemma ContainsPrefix(s: string, a: string, b: string)
    requires Contains(s, a + b)
    ensures Contains(s, a)
  {
    var i :| 0 <= i <= |s| - |a + b| && OccursAt(s, a + b, i);
    assert s[i..i + |a|] == s[i..i + |a + b|][..|a|] == (a + b)[..|a|] == a;
    assert OccursAt(s, a, i);
  }

  function LowerChar(c: char): char {
    if 'A' <= c <= 'Z' then (c as int + 32) as char else c
  }

  /** Python's `s.lower()`, for ASCII letters. */
  function Lower(s: string): (r: string)
    ensures |r| == |s|
    ensures forall i :: 0 <= i < |s| ==> r[i] == LowerChar(s[i])
  {
    seq(|s|, i requires 0 <= i < |s| => LowerChar(s[i]))
  }

  function DigitValue(c: char): nat
    requires IsDigit(c)
  {
    c as int - '0' as int
  }

  /** The number a run of decimal digits denotes. */
  function DigitsValue(s: string): nat
    requires AllDigits(s)
  {
    if s == [] then 0 else DigitsValue(s[..|s| - 1]) * 10 + DigitValue(s[|s| - 1])
  }

  /** `str(n)` for a natural number: its shortest decimal spelling. */
  function NatToString(n: nat): (r: string)
    ensures IsDecimal(r)
    ensures r[0] == '0' ==> n == 0
    decreases n
  {
    if n < 10 then [('0' as int + n) as char]
    else NatToString(n / 10) + [('0' as int + n % 10) as char]
  }

  /** `str(i)` for an integer. */
  function IntToString(i: int): string {
    if i < 0 then "-" + NatToString(-i) else NatToString(i)
  }

  lemma {:induction false} NatToStringValue(n: nat)
    ensures DigitsValue(NatToString(n)) == n
    decreases n
  {
    if n >= 10 {
      NatToStringValue(n / 10);
      var s := NatToString(n);
      assert s[..|s| - 1] == NatToString(n / 10);
    }
  }

  /** Digit groups as Python's int() accepts them: digits with single
      underscores between them. */
  predicate IsDigitGroups(s: string) {
    && s != []
    && IsDigit(s[0]) && IsDigit(s[|s| - 1])
    && (forall i :: 0 <= i < |s| ==> IsDigit(s[i]) || s[i] == '_')
    && (forall i :: 0 < i < |s| && s[i] == '_' ==> s[i - 1] != '_')
  }

  /** The digits of `s` with the underscores left out. */
  function DropUnderscores(s: string): (r: string)
    requires forall i :: 0 <= i < |s| ==> IsDigit(s[i]) || s[i] == '_'
    ensures AllDigits(r)
    ensures AllDigits(s) ==> r == s
  {
    if s == [] then []
    else if s[0] == '_' then DropUnderscores(s[1..])
    else [s[0]] + DropUnderscores(s[1..])
  }

  /** Python's `int(s)` on a string, in base 10: surrounding whitespace is
      ignored, an optional sign, then digit groups; anything else raises
      ValueError (None here). */
  function ParseInt(s: string): Option<int> {
    ParseStripped(Strip(s))
  }

  /** `int()` on text with no surrounding whitespace. */
  function ParseStripped(t: string): Option<int> {
    if t == [] then None
    else
      var neg := t[0] == '-';
      var body := if t[0] == '-' || t[0] == '+' then t[1..] else t;
      if !IsDigitGroups(body) then None
      else
        var d := DropUnderscores(body);
        var v: int := DigitsValue(d);
        Some(if neg then 0 - v else v)
  }

  lemma DecimalIsDigitGroups(s: string)
    requires IsDecimal(s)
    ensures IsDigitGroups(s) && DropUnderscores(s) == s
  {
  }

  /** `int()` ignores the whitespace `strip()` would remove. */
  lemma ParseIntOfStripped(s: string)
    requires IsStripped(s)
    ensures ParseInt(s) == ParseStripped(s)
  {
    StripStripped(s);
  }

  /** A run of digits parses to the number it spells. */
  lemma ParseIntDecimal(s: string)
    requires IsDecimal(s)
    ensures ParseInt(s) == Some(DigitsValue(s))
  {
    assert IsDigit(s[0]) && IsDigit(s[|s| - 1]);
    ParseIntOfStripped(s);
    DecimalIsDigitGroups(s);
  }

  /** A sign and a run of digits parse to the signed number they spell. */
  lemma ParseIntSignedDecimal(g: string)
    requires |g| >= 1 && (g[0] == '-' || g[0] == '+') && IsDecimal(g[1..])
    ensures g[0] == '-' ==> ParseInt(g) == Some(0 - DigitsValue(g[1..]))
    ensures g[0] == '+' ==> ParseInt(g) == Some(DigitsValue(g[1..]))
  {
    var d := g[1..];
    assert IsStripped(g) by {
      assert g[|g| - 1] == d[|d| - 1] && IsDigit(d[|d| - 1]);
    }
    ParseIntOfStripped(g);
    DecimalIsDigitGroups(d);
  }

  /** A minus sign and a run of digits parse to the negated number. */
  lemma ParseIntNegative(g: string, n: int)
    requires |g| >= 1 && g[0] == '-' && IsDecimal(g[1..]) && DigitsValue(g[1..]) == n
    ensures ParseInt(g).Some? && ParseInt(g).value == -n
  {
    ParseIntSignedDecimal(g);
  }

  /** `int(str(i)) == i`. */
  lemma IntToStringRoundTrip(i: int)
    ensures ParseInt(IntToString(i)).Some? && ParseInt(IntToString(i)).value == i
  {
    if i >= 0 {
      NatToStringParses(i);
    } else {
      NegativeToStringParses(i);
    }
  }

  /** The decimal spelling of a natural number parses back to it. */
  lemma NatToStringParses(n: nat)
    ensures ParseInt(NatToString(n)).Some? && ParseInt(NatToString(n)).value == n
  {
    NatToStringValue(n);
    ParseIntDecimal(NatToString(n));
  }

  /** A minus sign before the spelling of `-i` parses back to `i`. */
  lemma NegativeToStringParses(i: int)
    requires i < 0
    ensures ParseInt("-" + NatToString(-i)).Some? && ParseInt("-" + NatToString(-i)).value == i
  {
    var d := NatToString(-i);
    NatToStringValue(-i);
    NegativeParses(d, -i);
  }

  /** A minus sign before a run of digits worth `n` parses to `-n`. */
  lemma NegativeParses(d: string, n: int)
    requires IsDecimal(d) && DigitsValue(d) == n
    ensures ParseInt("-" + d).Some? && ParseInt("-" + d).value == -n
  {
    assert ("-" + d)[1..] == d;
    ParseIntNegative("-" + d, n);
  }

}
