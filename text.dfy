/**
 * The Python string operations the core relies on, with Python's semantics:
 * `strip()`, `startswith`, the `in` operator on strings, `find`, `replace`,
 * `split(sep)[0]`, `split(sep)[-1]`, `split("\n")`, `"\n".join`, slicing
 * `s[:n]`, and `lower()`/`upper()` on ASCII letters.
 */
module Text {
  import opened Wrappers

  // ---------------------------------------------------------------------------
  // Whitespace and strip()
  // ---------------------------------------------------------------------------

  /** The characters for which Python's `str.isspace()` holds. */
  predicate IsSpace(c: char) {
    c == ' ' || c == '\t' || c == '\n' || c == '\r' || c == '\U{B}' || c == '\U{C}'
    || ('\U{1C}' <= c <= '\U{1F}') || c == '\U{85}' || c == '\U{A0}' || c == '\U{1680}'
    || ('\U{2000}' <= c <= '\U{200A}') || c == '\U{2028}' || c == '\U{2029}'
    || c == '\U{202F}' || c == '\U{205F}' || c == '\U{3000}'
  }

  predicate AllSpace(s: string) {
    forall i :: 0 <= i < |s| ==> IsSpace(s[i])
  }

  /** Python's `not s.strip()`: the text is empty or whitespace only. */
  predicate Blank(s: string) {
    AllSpace(s)
  }

  /** Neither the first nor the last character is whitespace. */
  predicate Trimmed(s: string) {
    s == [] || (!IsSpace(s[0]) && !IsSpace(s[|s| - 1]))
  }

  /** `s.lstrip()`: drops the leading whitespace and keeps the rest. */
  function StripLeft(s: string): string
    decreases |s|
  {
    if s == [] || !IsSpace(s[0]) then s else StripLeft(s[1..])
  }

  /** `s.rstrip()`: drops the trailing whitespace and keeps the rest. */
  function StripRight(s: string): string
    decreases |s|
  {
    if s == [] || !IsSpace(s[|s| - 1]) then s else StripRight(s[..|s| - 1])
  }

  /** `lstrip()` keeps a suffix, drops only whitespace, and stops at a non-space. */
  lemma {:induction false} StripLeftShape(s: string)
    decreases |s|
    ensures var r := StripLeft(s);
      |r| <= |s| && r == s[|s| - |r|..]
      && (forall k :: 0 <= k < |s| - |r| ==> IsSpace(s[k]))
      && (r == [] || !IsSpace(r[0]))
  {
    if s != [] && IsSpace(s[0]) {
      StripLeftShape(s[1..]);
      var r := StripLeft(s[1..]);
      assert forall k :: 1 <= k < |s| - |r| ==> s[k] == s[1..][k - 1];
    }
  }

  /** `rstrip()` keeps a prefix, drops only whitespace, and stops at a non-space. */
  lemma {:induction false} StripRightShape(s: string)
    decreases |s|
    ensures var r := StripRight(s);
      |r| <= |s| && r == s[..|r|]
      && (forall k :: |r| <= k < |s| ==> IsSpace(s[k]))
      && (r == [] || !IsSpace(r[|r| - 1]))
  {
    if s != [] && IsSpace(s[|s| - 1]) {
      StripRightShape(s[..|s| - 1]);
      var r := StripRight(s[..|s| - 1]);
      assert forall k :: |r| <= k < |s| - 1 ==> s[k] == s[..|s| - 1][k];
    }
  }

  /** `r` is the slice of `s` at `i` with nothing but whitespace around it. */
  predicate SpaceAround(s: string, r: string, i: int) {
    0 <= i <= |s| - |r| && r == s[i..i + |r|]
    && (forall k :: 0 <= k < i ==> IsSpace(s[k]))
    && (forall k :: i + |r| <= k < |s| ==> IsSpace(s[k]))
  }

  /** `s.strip()`: the text between the leading and the trailing whitespace. */
  function Strip(s: string): (r: string)
    ensures Trimmed(r)
  {
    StripLeftShape(s);
    StripRightShape(StripLeft(s));
    StripRight(StripLeft(s))
  }

  /** A prefix of a suffix is a slice, and what follows the prefix in the suffix follows the slice in the whole. */
  lemma PrefixOfSuffix(s: string, i: int, l: string, r: string)
    requires 0 <= i <= |s| && l == s[i..] && |r| <= |l| && r == l[..|r|]
    ensures r == s[i..i + |r|]
    ensures forall k :: |r| <= k < |l| ==> l[k] == s[i + k]
  {
  }

  /** `s.strip()` is the slice of `s` left when the whitespace at both ends is cut off. */
  lemma StripShape(s: string) returns (i: int)
    ensures SpaceAround(s, Strip(s), i)
  {
    var l := StripLeft(s);
    StripLeftShape(s);
    StripRightShape(l);
    var r := StripRight(l);
    i := |s| - |l|;
    PrefixOfSuffix(s, i, l, r);
    forall k | i + |r| <= k < |s|
      ensures IsSpace(s[k])
    {
      assert l[k - i] == s[k];
    }
  }

  predicate HasNonSpace(s: string) {
    exists i :: 0 <= i < |s| && !IsSpace(s[i])
  }

  lemma {:induction false} StripLeftOfSpacePrefix(w: string, s: string)
    requires AllSpace(w)
    ensures StripLeft(w + s) == StripLeft(s)
    decreases |w|
  {
    if w != [] {
      assert (w + s)[0] == w[0];
      assert IsSpace((w + s)[0]);
      assert (w + s)[1..] == w[1..] + s;
      assert StripLeft(w + s) == StripLeft(w[1..] + s);
      StripLeftOfSpacePrefix(w[1..], s);
    } else {
      assert w + s == s;
    }
  }

  lemma {:induction false} StripRightOfSpaceSuffix(s: string, w: string)
    requires AllSpace(w)
    ensures StripRight(s + w) == StripRight(s)
    decreases |w|
  {
    if w != [] {
      assert (s + w)[|s + w| - 1] == w[|w| - 1];
      assert IsSpace((s + w)[|s + w| - 1]);
      assert (s + w)[..|s + w| - 1] == s + w[..|w| - 1];
      assert StripRight(s + w) == StripRight(s + w[..|w| - 1]);
      StripRightOfSpaceSuffix(s, w[..|w| - 1]);
    } else {
      assert s + w == s;
    }
  }

  lemma {:induction false} StripLeftKeepsSuffix(s: string, w: string)
    requires HasNonSpace(s)
    ensures StripLeft(s + w) == StripLeft(s) + w
    decreases |s|
  {
    assert (s + w)[0] == s[0];
    if IsSpace(s[0]) {
      assert (s + w)[1..] == s[1..] + w;
      var i :| 0 <= i < |s| && !IsSpace(s[i]);
      assert s[1..][i - 1] == s[i];
      StripLeftKeepsSuffix(s[1..], w);
    }
  }

  lemma {:induction false} StripLeftOfAllSpace(s: string)
    requires AllSpace(s)
    ensures StripLeft(s) == []
    decreases |s|
  {
    if s != [] { StripLeftOfAllSpace(s[1..]); }
  }

  /** Whitespace around `s` does not change what `strip()` returns. */
  lemma StripPadded(w: string, s: string, w': string)
    requires AllSpace(w) && AllSpace(w')
    ensures Strip(w + s + w') == Strip(s)
  {
    assert w + s + w' == w + (s + w');
    StripLeftOfSpacePrefix(w, s + w');
    if HasNonSpace(s) {
      StripLeftKeepsSuffix(s, w');
      StripRightOfSpaceSuffix(StripLeft(s), w');
    } else {
      assert AllSpace(s + w');
      StripLeftOfAllSpace(s + w');
      StripLeftOfAllSpace(s);
    }
  }

  /** `rstrip()` of a text whose tail holds a non-space keeps everything in front of the tail. */
  lemma {:induction false} StripRightKeepsPrefix(p: string, s: string)
    requires HasNonSpace(s)
    ensures StripRight(p + s) == p + StripRight(s)
    decreases |s|
  {
    var ps := p + s;
    assert ps[|ps| - 1] == s[|s| - 1];
    if IsSpace(s[|s| - 1]) {
      var s' := s[..|s| - 1];
      var i :| 0 <= i < |s| && !IsSpace(s[i]);
      assert s'[i] == s[i];
      assert ps[..|ps| - 1] == p + s';
      StripRightKeepsPrefix(p, s');
    }
  }

  /** `lstrip()` of a text that does not start with whitespace is the text itself. */
  lemma StripLeftIdempotent(s: string)
    ensures StripLeft(StripLeft(s)) == StripLeft(s)
  {
    StripLeftShape(s);
  }

  /** Stripping the leading whitespace first does not change what `strip()` returns. */
  lemma StripOfStripLeft(s: string)
    ensures Strip(StripLeft(s)) == Strip(s)
  {
    StripLeftIdempotent(s);
  }

  /** `lstrip()` of a line break, a body with some non-space and more text keeps all after the body's leading whitespace. */
  lemma StripLeftSection(body: string, w: string)
    requires HasNonSpace(body)
    ensures StripLeft("\n" + body + "\n\n" + w) == StripLeft(body) + "\n\n" + w
  {
    StripLeftOfSpacePrefix("\n", body + "\n\n" + w);
    assert "\n" + body + "\n\n" + w == "\n" + (body + "\n\n" + w);
    StripLeftKeepsSuffix(body, "\n\n" + w);
    assert body + ("\n\n" + w) == body + "\n\n" + w;
    assert StripLeft(body) + ("\n\n" + w) == StripLeft(body) + "\n\n" + w;
  }

  /** `rstrip()` of a text ending in a line that starts with a `rule` ending in a non-space stops inside that line. */
  lemma StripRightSection(l: string, w: string, rule: string)
    requires rule != [] && !IsSpace(rule[|rule| - 1]) && StartsWith(w, rule)
    ensures StripRight(l + w) == l + StripRight(w)
    ensures StartsWith(StripRight(w), rule)
  {
    assert w[|rule| - 1] == rule[|rule| - 1];
    assert HasNonSpace(w);
    StripRightKeepsPrefix(l, w);
    StripRightShape(w);
    var y := StripRight(w);
    assert y[..|rule|] == w[..|rule|];
  }

  /**
   * Stripping a line break, a body with some non-space, two line breaks and
   * a line that starts with a `rule` ending in a non-space keeps the body's
   * text after its leading whitespace, up to the rule line with its trailing
   * whitespace cut.
   */
  lemma StripSection(body: string, w: string, rule: string)
    requires HasNonSpace(body) && rule != [] && !IsSpace(rule[|rule| - 1]) && StartsWith(w, rule)
    ensures Strip("\n" + body + "\n\n" + w) == StripLeft(body) + "\n\n" + StripRight(w)
    ensures StartsWith(StripRight(w), rule)
  {
    StripLeftSection(body, w);
    StripRightSection(StripLeft(body) + "\n\n", w, rule);
  }

  /** Trailing whitespace does not change what `strip()` returns. */
  lemma StripRightPadded(s: string, w: string)
    requires AllSpace(w)
    ensures Strip(s + w) == Strip(s)
  {
    StripPadded([], s, w);
    assert [] + s + w == s + w;
  }

  /** A string with no whitespace at either end is its own `strip()`. */
  lemma StripTrimmed(s: string)
    requires Trimmed(s)
    ensures Strip(s) == s
  {
  }

  /** `strip()` is idempotent. */
  lemma StripIdempotent(s: string)
    ensures Strip(Strip(s)) == Strip(s)
  {
    StripTrimmed(Strip(s));
  }

  /** `s.strip()` is empty exactly when `s` is blank. */
  lemma StripEmptyIffBlank(s: string)
    ensures Strip(s) == [] <==> Blank(s)
  {
    if Blank(s) {
      StripLeftOfAllSpace(s);
    } else {
      var i := StripShape(s);
    }
  }

  // ---------------------------------------------------------------------------
  // Prefixes, occurrences, the `in` operator and find()
  // ---------------------------------------------------------------------------

  /** `s.startswith(p)` */
  predicate StartsWith(s: string, p: string) {
    |p| <= |s| && s[..|p|] == p
  }

  /** `p` occurs in `s` starting at index `i`. */
  predicate Occurs(s: string, p: string, i: int) {
    0 <= i && i + |p| <= |s| && s[i..i + |p|] == p
  }

  /** `s.find(p, from)`: the first index at or after `from` where `p` occurs. */
  function FindFrom(s: string, p: string, from: nat): (r: Option<nat>)
    decreases |s| - from
    ensures r.Some? ==> from <= r.value && Occurs(s, p, r.value)
    ensures r.Some? ==> forall j :: from <= j < r.value ==> !Occurs(s, p, j)
    ensures r.None? ==> forall j :: from <= j ==> !Occurs(s, p, j)
  {
    if from + |p| > |s| then None
    else if s[from..from + |p|] == p then Some(from)
    else FindFrom(s, p, from + 1)
  }

  /** `s.find(p)`, with `None` for Python's -1. */
  function Find(s: string, p: string): (r: Option<nat>)
    ensures r.Some? ==> Occurs(s, p, r.value) && forall j :: 0 <= j < r.value ==> !Occurs(s, p, j)
    ensures r.None? ==> forall j :: !Occurs(s, p, j)
  {
    FindFrom(s, p, 0)
  }

  /** Python's `p in s` for strings. */
  predicate Contains(s: string, p: string)
  {
    Find(s, p).Some?
  }

  /** `p in s` holds exactly when `p` occurs somewhere in `s`. */
  lemma ContainsIff(s: string, p: string)
    ensures Contains(s, p) <==> exists i :: Occurs(s, p, i)
  {
  }

  /** The first occurrence is the only index with no occurrence before it. */
  lemma FindIsFirst(s: string, p: string, i: nat)
    requires Occurs(s, p, i) && forall j :: 0 <= j < i ==> !Occurs(s, p, j)
    ensures Find(s, p) == Some(i)
  {
  }

  /** An occurrence in a slice is an occurrence in the whole text, and back. */
  lemma OccursInSlice(s: string, lo: nat, hi: nat, p: string, j: int)
    requires lo <= hi <= |s|
    ensures Occurs(s[lo..hi], p, j) <==> 0 <= j && lo + j + |p| <= hi && Occurs(s, p, lo + j)
  {
    if 0 <= j && lo + j + |p| <= hi {
      var u := s[lo..hi][j..j + |p|];
      var v := s[lo + j..lo + j + |p|];
      forall t | 0 <= t < |p|
        ensures u[t] == v[t]
      {
        assert u[t] == s[lo + j + t];
      }
      assert u == v;
    }
  }

  /** The characters of an occurrence are the characters of the pattern. */
  lemma OccursChars(s: string, p: string)
    ensures forall i, k {:trigger Occurs(s, p, i), p[k]} :: Occurs(s, p, i) && 0 <= k < |p| ==> s[i + k] == p[k]
  {
    forall i, k | Occurs(s, p, i) && 0 <= k < |p|
      ensures s[i + k] == p[k]
    {
      assert s[i..i + |p|][k] == s[i + k];
    }
  }

  /** Every character an occurrence covers is a character of the pattern. */
  lemma CoveredChars(s: string, p: string)
    ensures forall i, m {:trigger Occurs(s, p, i), s[m]} :: Occurs(s, p, i) && i <= m < i + |p| ==> s[m] in p
  {
    OccursChars(s, p);
    forall i, m | Occurs(s, p, i) && i <= m < i + |p|
      ensures s[m] in p
    {
      assert s[i + (m - i)] == p[m - i];
    }
  }

  /** A pattern with a character that never appears in `s` does not occur in `s`. */
  lemma NotContainsMissingChar(s: string, p: string, d: char)
    requires d in p && d !in s
    ensures !Contains(s, p)
  {
    OccursChars(s, p);
  }

  /** No character of `s` is `c`. */
  predicate Lacks(s: string, c: char) {
    forall i :: 0 <= i < |s| ==> s[i] != c
  }

  /** A concatenation lacks what both parts lack. */
  lemma LacksAppend(a: string, b: string, c: char)
    ensures Lacks(a + b, c) <==> Lacks(a, c) && Lacks(b, c)
  {
    if Lacks(a, c) && Lacks(b, c) {
      forall i | 0 <= i < |a + b|
        ensures (a + b)[i] != c
      {
        if i >= |a| {
          assert (a + b)[i] == b[i - |a|];
        }
      }
    }
    if Lacks(a + b, c) {
      assert forall i :: 0 <= i < |a| ==> a[i] == (a + b)[i];
      assert forall i :: 0 <= i < |b| ==> b[i] == (a + b)[|a| + i];
    }
  }

  /** A text lacks `c` exactly when `c` is not in it. */
  lemma LacksNotIn(s: string, c: char)
    ensures Lacks(s, c) <==> c !in s
  {
  }

  /** A pattern holding a character the text lacks does not occur in the text. */
  lemma LacksMarker(s: string, p: string, k: int)
    requires 0 <= k < |p| && Lacks(s, p[k])
    ensures !Contains(s, p)
  {
    OccursChars(s, p);
  }

  /** A prefix of `s` is contained in `s`. */
  lemma StartsWithContains(s: string, p: string)
    requires StartsWith(s, p)
    ensures Contains(s, p)
  {
    assert Occurs(s, p, 0);
  }

  /** A slice of `s` is contained in `s`, and so is everything the slice contains. */
  lemma SliceContains(s: string, lo: nat, hi: nat, p: string)
    requires lo <= hi <= |s|
    ensures Contains(s, s[lo..hi])
    ensures Contains(s[lo..hi], p) ==> Contains(s, p)
  {
    assert Occurs(s, s[lo..hi], lo);
    if Contains(s[lo..hi], p) {
      var j := Find(s[lo..hi], p).value;
      OccursInSlice(s, lo, hi, p, j);
    }
  }

  /** Containment is transitive. */
  lemma ContainsTrans(a: string, b: string, c: string)
    requires Contains(a, b) && Contains(b, c)
    ensures Contains(a, c)
  {
    var i := Find(a, b).value;
    var j := Find(b, c).value;
    assert a[i..i + |b|] == b;
    OccursInSlice(a, i, i + |b|, c, j);
  }

  /** `s.strip()` is contained in `s`, and so is everything it contains. */
  lemma StripContains(s: string, p: string)
    ensures Contains(s, Strip(s))
    ensures Contains(Strip(s), p) ==> Contains(s, p)
  {
    var i := StripShape(s);
    SliceContains(s, i, i + |Strip(s)|, p);
  }

  /** An occurrence inside a piece of a concatenation is an occurrence in the whole. */
  lemma ContainsInConcat(a: string, b: string, p: string)
    ensures Contains(a, p) ==> Contains(a + b, p)
    ensures Contains(b, p) ==> Contains(a + b, p)
  {
    if Contains(a, p) {
      var i := Find(a, p).value;
      assert (a + b)[i..i + |p|] == a[i..i + |p|];
      assert Occurs(a + b, p, i);
    }
    if Contains(b, p) {
      var i := Find(b, p).value;
      assert (a + b)[|a| + i..|a| + i + |p|] == b[i..i + |p|];
      assert Occurs(a + b, p, |a| + i);
    }
  }

  /**
   * A pattern that does not hold the character `c` cannot straddle a `c`:
   * it occurs in `a + [c] + b` exactly when it occurs in `a` or in `b`.
   */
  lemma ContainsAcross(a: string, c: char, b: string, p: string)
    requires c !in p
    ensures Contains(a + [c] + b, p) <==> Contains(a, p) || Contains(b, p)
  {
    var s := a + [c] + b;
    assert s == a + ([c] + b);
    ContainsInConcat(a, [c] + b, p);
    ContainsInConcat([c], b, p);
    if Contains(s, p) {
      var i := Find(s, p).value;
      CoveredChars(s, p);
      assert s[|a|] == c;
      if i + |p| <= |a| {
        OccursInSlice(s, 0, |a|, p, i);
        assert s[0..|a|] == a;
      } else {
        OccursInSlice(s, |a| + 1, |s|, p, i - |a| - 1);
        assert s[|a| + 1..|s|] == b;
      }
    }
  }

  /** A text holds each piece it is made of; here, the second of six. */
  lemma SecondPieceContained(h: string, m: string, x: string, r: string, y: string, f: string)
    ensures Contains(h + m + x + r + y + f, m)
  {
    var rest := m + x + r + y + f;
    assert h + m + x + r + y + f == h + rest;
    assert StartsWith(rest, m);
    StartsWithContains(rest, m);
    ContainsInConcat(h, rest, m);
  }

  /** A text starts with its first piece. */
  lemma StartsWithFirst(p: string, y: string, x: string)
    ensures StartsWith(p + y + x, p)
  {
    assert (p + y + x)[..|p|] == p;
  }

  // ---------------------------------------------------------------------------
  // replace(), split(sep)[0] and split(sep)[-1]
  // ---------------------------------------------------------------------------

  /** `s.replace(p, rep)`: every non-overlapping occurrence, scanned left to right. */
  function ReplaceAll(s: string, p: string, rep: string): (r: string)
    requires p != []
    decreases |s|
  {
    if StartsWith(s, p) then rep + ReplaceAll(s[|p|..], p, rep)
    else if s == [] then []
    else [s[0]] + ReplaceAll(s[1..], p, rep)
  }

  /** Every character of `s.replace(p, rep)` comes from `s` or from `rep`. */
  lemma {:induction false} ReplaceAllChars(s: string, p: string, rep: string, d: char)
    requires p != []
    ensures d in ReplaceAll(s, p, rep) ==> d in s || d in rep
    decreases |s|
  {
    if StartsWith(s, p) {
      ReplaceAllChars(s[|p|..], p, rep, d);
    } else if s != [] {
      ReplaceAllChars(s[1..], p, rep, d);
    }
  }

  /** Replacing a one-character pattern by text without it removes that character. */
  lemma {:induction false} ReplaceCharRemoves(s: string, c: char, rep: string)
    requires c !in rep
    ensures c !in ReplaceAll(s, [c], rep)
    decreases |s|
  {
    if s != [] {
      ReplaceCharRemoves(s[1..], c, rep);
    }
  }

  /** `s.replace(p, rep)` leaves a text without `p` as it is. */
  lemma {:induction false} ReplaceAbsent(s: string, p: string, rep: string)
    requires p != [] && !Contains(s, p)
    ensures ReplaceAll(s, p, rep) == s
    decreases |s|
  {
    assert !StartsWith(s, p) by {
      assert StartsWith(s, p) ==> Occurs(s, p, 0);
    }
    if s != [] {
      forall j ensures !Occurs(s[1..], p, j) {
        OccursInSlice(s, 1, |s|, p, j);
      }
      ReplaceAbsent(s[1..], p, rep);
    }
  }

  /** Replacing a marker that starts the text and does not occur again removes just that prefix. */
  lemma ReplaceLeadingMarker(p: string, rest: string, rep: string)
    requires p != [] && !Contains(rest, p)
    ensures ReplaceAll(p + rest, p, rep) == rep + rest
  {
    assert StartsWith(p + rest, p);
    assert (p + rest)[|p|..] == rest;
    ReplaceAbsent(rest, p, rep);
  }

  /** `s.split(sep)[0]`: the text before the first occurrence of `sep`. */
  function FirstPiece(s: string, sep: string): (r: string)
    requires sep != []
    decreases |s|
    ensures StartsWith(s, r)
    ensures r == s || StartsWith(s[|r|..], sep)
  {
    if s == [] || StartsWith(s, sep) then []
    else
      var t := FirstPiece(s[1..], sep);
      assert s[1..][|t|..] == s[1 + |t|..];
      [s[0]] + t
  }

  /** Nothing in front of the first piece starts a separator. */
  lemma {:induction false} FirstPieceIsFirst(s: string, sep: string)
    requires sep != []
    ensures !Contains(FirstPiece(s, sep), sep)
    decreases |s|
  {
    if s != [] && !StartsWith(s, sep) {
      var t := FirstPiece(s[1..], sep);
      FirstPieceIsFirst(s[1..], sep);
      ConsNotContains(s[0], t, sep);
    }
  }

  /**
   * A separator without the character `c` is found after `a + [c]` when `a`
   * holds none: the first piece keeps `a + [c]` in front.
   */
  lemma {:induction false} FirstPieceSkips(a: string, c: char, b: string, sep: string)
    requires sep != [] && c !in sep && !Contains(a, sep)
    ensures FirstPiece(a + [c] + b, sep) == a + [c] + FirstPiece(b, sep)
    decreases |a|
  {
    var s := a + [c] + b;
    PrefixBeforeChar(a, c, b, sep);
    if a == [] {
      assert s[1..] == b;
    } else {
      assert s[1..] == a[1..] + [c] + b;
      ContainsInConcat([a[0]], a[1..], sep);
      assert [a[0]] + a[1..] == a;
      FirstPieceSkips(a[1..], c, b, sep);
    }
  }

  /** Cutting at the first `sep` keeps a text free of it and the two line breaks after it. */
  lemma CutAtBreaks(l: string, y: string, sep: string)
    requires sep != [] && '\n' !in sep && !Contains(l, sep) && StartsWith(y, sep)
    ensures FirstPiece(l + "\n\n" + y, sep) == l + "\n\n"
  {
    var y1 := "\n" + y;
    assert l + "\n\n" + y == l + ['\n'] + y1;
    FirstPieceSkips(l, '\n', y1, sep);
    assert y1 == [] + ['\n'] + y;
    FirstPieceSkips([], '\n', y, sep);
    assert FirstPiece(y, sep) == [];
  }

  /** A text `a + [c] + b` with `c` not in `sep` and no `sep` in `a` does not start with `sep`. */
  lemma PrefixBeforeChar(a: string, c: char, b: string, sep: string)
    requires sep != [] && c !in sep && !Contains(a, sep)
    ensures !StartsWith(a + [c] + b, sep)
  {
    var s := a + [c] + b;
    if |sep| <= |a| {
      assert s[..|sep|] == a[..|sep|];
      assert StartsWith(a, sep) ==> Contains(a, sep) by {
        if StartsWith(a, sep) { StartsWithContains(a, sep); }
      }
    } else {
      assert |sep| <= |s| ==> s[..|sep|][|a|] == c;
    }
  }

  /** Putting a character in front of a text without `p` adds no `p` unless it starts one. */
  lemma ConsNotContains(x: char, t: string, p: string)
    requires p != [] && !Contains(t, p) && !StartsWith([x] + t, p)
    ensures !Contains([x] + t, p)
  {
    var s := [x] + t;
    forall j ensures !Occurs(s, p, j) {
      if j >= 1 {
        OccursInSlice(s, 1, |s|, p, j - 1);
        assert s[1..|s|] == t;
      } else if j == 0 {
        assert Occurs(s, p, 0) ==> StartsWith(s, p);
      }
    }
  }

  /**
   * The last separator found when `s` is scanned for `sep` from `from`,
   * each search resuming right after the separator found before.
   */
  function LastSep(s: string, sep: string, from: nat): (r: Option<nat>)
    requires sep != [] && from <= |s|
    decreases |s| - from
    ensures r.Some? ==> from <= r.value && Occurs(s, sep, r.value)
  {
    match FindFrom(s, sep, from)
    case None => None
    case Some(i) =>
      var later := LastSep(s, sep, i + |sep|);
      if later.Some? then later else Some(i)
  }

  /** Where the last piece of the split starts: after the last separator found. */
  function LastPieceStart(s: string, sep: string, from: nat): (k: nat)
    requires sep != [] && from <= |s|
    ensures from <= k <= |s|
  {
    match LastSep(s, sep, from)
    case None => from
    case Some(i) => i + |sep|
  }

  /** `s.split(sep)[-1]`: the text after the last separator found scanning left to right. */
  function LastPiece(s: string, sep: string): string
    requires sep != []
  {
    s[LastPieceStart(s, sep, 0)..]
  }

  /** No separator occurs from the start of the last piece on. */
  lemma {:induction false} LastPieceStartFree(s: string, sep: string, from: nat)
    requires sep != [] && from <= |s|
    decreases |s| - from
    ensures forall j :: LastPieceStart(s, sep, from) <= j ==> !Occurs(s, sep, j)
  {
    var f := FindFrom(s, sep, from);
    if f.Some? {
      var i := f.value;
      LastPieceStartFree(s, sep, i + |sep|);
    }
  }

  /** A suffix of `s` holds `p` only where `s` holds it at or after the cut. */
  lemma SuffixFree(s: string, k: nat, p: string)
    requires k <= |s| && forall j :: k <= j ==> !Occurs(s, p, j)
    ensures !Contains(s[k..], p)
  {
    forall j ensures !Occurs(s[k..], p, j) {
      OccursInSlice(s, k, |s|, p, j);
      assert s[k..|s|] == s[k..];
    }
  }

  /**
   * `split(sep)[-1]` is a suffix free of the separator, and it is either the
   * whole text or directly preceded by an occurrence of the separator.
   */
  lemma LastPieceShape(s: string, sep: string)
    requires sep != []
    ensures var r := LastPiece(s, sep);
      |r| <= |s| && r == s[|s| - |r|..] && !Contains(r, sep)
      && (|r| == |s| || Occurs(s, sep, |s| - |r| - |sep|))
  {
    var k := LastPieceStart(s, sep, 0);
    LastPieceStartFree(s, sep, 0);
    SuffixFree(s, k, sep);
  }

  /** No proper suffix of `p` is also a prefix of it: `p` cannot overlap itself. */
  predicate Unbordered(p: string) {
    forall k :: 0 < k < |p| ==> p[k..] != p[..|p| - k]
  }

  /** A pattern whose last character appears nowhere else cannot overlap itself. */
  lemma UnborderedByLastChar(p: string)
    requires p != [] && p[|p| - 1] !in p[..|p| - 1]
    ensures Unbordered(p)
  {
    forall k | 0 < k < |p|
      ensures p[k..] != p[..|p| - k]
    {
      assert p[k..][|p| - k - 1] == p[|p| - 1];
      assert p[..|p| - k][|p| - k - 1] == p[..|p| - 1][|p| - k - 1];
    }
  }

  /** Two occurrences less than a pattern's length apart give the pattern a border. */
  lemma OverlapBorder(s: string, p: string, i: int, j: int)
    requires Occurs(s, p, i) && Occurs(s, p, j) && i < j
    ensures j < i + |p| ==> p[j - i..] == p[..|p| - (j - i)]
  {
    if j < i + |p| {
      var d := j - i;
      OccursChars(s, p);
      forall t | 0 <= t < |p| - d
        ensures p[d..][t] == p[..|p| - d][t]
      {
        assert s[i + (d + t)] == p[d + t];
        assert s[j + t] == p[t];
      }
    }
  }

  /**
   * Resuming the scan anywhere before a marker that cannot overlap itself,
   * the next separator found is that marker or lies wholly before it.
   */
  lemma MarkerFoundNext(s: string, p: string, at: nat, from: nat) returns (i: nat)
    requires p != [] && Unbordered(p) && Occurs(s, p, at) && from <= at
    ensures FindFrom(s, p, from) == Some(i)
    ensures i == at || i + |p| <= at
  {
    i := FindFrom(s, p, from).value;
    if i < at {
      OverlapBorder(s, p, i, at);
    }
  }

  /**
   * With a marker that cannot overlap itself at `at` and no separator after
   * it, a scan resumed anywhere before the marker finds that marker last.
   */
  lemma {:induction false} LastSepAtMarker(s: string, p: string, at: nat, from: nat)
    requires p != [] && Unbordered(p) && Occurs(s, p, at) && from <= at
    requires forall j :: at + |p| <= j ==> !Occurs(s, p, j)
    decreases at - from
    ensures LastSep(s, p, from) == Some(at)
  {
    var i := MarkerFoundNext(s, p, at, from);
    if i == at {
      assert FindFrom(s, p, at + |p|).None?;
    } else {
      LastSepAtMarker(s, p, at, i + |p|);
    }
  }

  /**
   * When a marker that cannot overlap itself is followed by text free of it,
   * `split(marker)[-1]` is exactly that text, whatever comes before the marker.
   */
  lemma LastPieceAfterMarker(x: string, p: string, rest: string)
    requires p != [] && Unbordered(p) && !Contains(rest, p)
    ensures LastPiece(x + p + rest, p) == rest
  {
    var s := x + p + rest;
    assert s[|x|..|x| + |p|] == p;
    forall j | |x| + |p| <= j
      ensures !Occurs(s, p, j)
    {
      OccursInSlice(s, |x| + |p|, |s|, p, j - |x| - |p|);
      assert s[|x| + |p|..|s|] == rest;
    }
    LastSepAtMarker(s, p, |x|, 0);
    assert s[|x| + |p|..] == rest;
  }

  /** `lstrip()` keeps a suffix, so it holds nothing the text does not. */
  lemma StripLeftContains(s: string, p: string)
    ensures Contains(StripLeft(s), p) ==> Contains(s, p)
  {
    var l := StripLeft(s);
    StripLeftShape(s);
    SliceContains(s, |s| - |l|, |s|, p);
    assert s[|s| - |l|..|s|] == l;
  }

  /** The last piece after a marker followed by a line break is everything after the marker, when no marker follows. */
  lemma SectionPiece(top: string, marker: string, body: string, w: string)
    requires marker != [] && '\n' !in marker && Unbordered(marker)
    requires !Contains(body, marker) && !Contains(w, marker)
    ensures LastPiece(top + marker + "\n" + body + "\n\n" + w, marker) == "\n" + body + "\n\n" + w
  {
    var rest := "\n" + body + "\n\n" + w;
    assert top + marker + "\n" + body + "\n\n" + w == top + marker + rest;
    assert rest == [] + ['\n'] + body + ['\n'] + ([] + ['\n'] + w);
    ContainsAcross([], '\n', w, marker);
    ContainsAcross([], '\n', body, marker);
    ContainsAcross([] + ['\n'] + body, '\n', [] + ['\n'] + w, marker);
    LastPieceAfterMarker(top, marker, rest);
  }

  /** The text `strip()` and `split(rule)[0]` leave of a body between line breaks followed by a `rule` line. */
  lemma CutSectionPiece(body: string, w: string, rule: string)
    requires HasNonSpace(body) && !Contains(body, rule)
    requires rule != [] && '\n' !in rule && !IsSpace(rule[|rule| - 1]) && StartsWith(w, rule)
    ensures FirstPiece(Strip("\n" + body + "\n\n" + w), rule) == StripLeft(body) + "\n\n"
  {
    StripSection(body, w, rule);
    StripLeftContains(body, rule);
    CutAtBreaks(StripLeft(body), StripRight(w), rule);
  }

  /** Whitespace after the body's text is cut by the second `strip()`. */
  lemma StripBodyBreaks(body: string)
    ensures Strip(StripLeft(body) + "\n\n") == Strip(body)
  {
    var w := "\n\n";
    assert AllSpace(w) by {
      assert w[0] == '\n' && w[1] == '\n';
    }
    StripRightPadded(StripLeft(body), w);
    StripOfStripLeft(body);
  }

  /**
   * A body after a line break and followed by two line breaks and a `rule`
   * line comes back as the stripped body after strip, `split(rule)[0]` and
   * strip again.
   */
  lemma CutSection(body: string, w: string, rule: string)
    requires !Contains(body, rule)
    requires rule != [] && '\n' !in rule && !IsSpace(rule[0]) && !IsSpace(rule[|rule| - 1])
    requires StartsWith(w, rule)
    ensures Strip(FirstPiece(Strip("\n" + body + "\n\n" + w), rule)) == Strip(body)
  {
    if HasNonSpace(body) {
      CutSectionPiece(body, w, rule);
      StripBodyBreaks(body);
    } else {
      CutBlankSection(body, w, rule);
    }
  }

  /** A blank body comes back as `""`: the text after strip starts with the rule. */
  lemma CutBlankSection(body: string, w: string, rule: string)
    requires AllSpace(body)
    requires rule != [] && !IsSpace(rule[0]) && !IsSpace(rule[|rule| - 1]) && StartsWith(w, rule)
    ensures Strip(FirstPiece(Strip("\n" + body + "\n\n" + w), rule)) == Strip(body) == []
  {
    var p := "\n" + body + "\n\n";
    assert forall k :: 0 <= k < |p| ==> IsSpace(p[k]) by {
      forall k | 0 <= k < |p| ensures IsSpace(p[k]) {
        if 1 <= k < 1 + |body| { assert p[k] == body[k - 1]; }
      }
    }
    assert "\n" + body + "\n\n" + w == p + w + [];
    StripPadded(p, w, []);
    assert w[0] == rule[0];
    assert StripLeft(w) == w;
    StripRightShape(w);
    var r := StripRight(w);
    assert w[|rule| - 1] == rule[|rule| - 1];
    assert |r| >= |rule|;
    assert r[..|rule|] == w[..|rule|];
    assert StartsWith(r, rule);
    assert FirstPiece(r, rule) == [];
    StripLeftOfAllSpace(body);
  }

  // ---------------------------------------------------------------------------
  // split(c) and c.join(...)
  // ---------------------------------------------------------------------------

  /** `s.split(c)` for a one-character separator: never empty, and `""` gives `[""]`. */
  function Split(s: string, c: char): (r: seq<string>)
    ensures |r| >= 1
    decreases |s|
  {
    if s == [] then [""]
    else if s[0] == c then [""] + Split(s[1..], c)
    else var t := Split(s[1..], c); [[s[0]] + t[0]] + t[1..]
  }

  /** `"".join(pieces)`: the pieces one after another. */
  function Concat(pieces: seq<string>): string
    decreases |pieces|
  {
    if pieces == [] then "" else pieces[0] + Concat(pieces[1..])
  }

  /** Every piece occurs in the joined text. */
  lemma {:induction false} ConcatContains(pieces: seq<string>, k: nat)
    requires k < |pieces|
    ensures Contains(Concat(pieces), pieces[k])
    decreases k
  {
    var r := Concat(pieces[1..]);
    if k == 0 {
      assert (pieces[0] + r)[..|pieces[0]|] == pieces[0];
      StartsWithContains(pieces[0] + r, pieces[0]);
    } else {
      assert pieces[1..][k - 1] == pieces[k];
      ConcatContains(pieces[1..], k - 1);
      ContainsInConcat(pieces[0], r, pieces[k]);
    }
  }

  /** `c.join(pieces)` */
  function Join(pieces: seq<string>, c: char): string
    decreases |pieces|
  {
    if pieces == [] then ""
    else if |pieces| == 1 then pieces[0]
    else pieces[0] + [c] + Join(pieces[1..], c)
  }

  /** Splitting at `c` and joining with `c` gives the text back, and no piece holds `c`. */
  lemma {:induction false} SplitJoin(s: string, c: char)
    ensures Join(Split(s, c), c) == s
    ensures forall k :: 0 <= k < |Split(s, c)| ==> c !in Split(s, c)[k]
    decreases |s|
  {
    if s != [] {
      SplitJoin(s[1..], c);
      var t := Split(s[1..], c);
      var r := Split(s, c);
      assert s == [s[0]] + s[1..];
      if s[0] == c {
        assert r == [""] + t;
        assert r[1..] == t;
        assert Join(r, c) == "" + [c] + Join(t, c);
      } else {
        assert r == [[s[0]] + t[0]] + t[1..];
        if |t| == 1 {
          assert Join(r, c) == [s[0]] + t[0];
        } else {
          assert r[1..] == t[1..];
          assert Join(r, c) == [s[0]] + t[0] + [c] + Join(t[1..], c);
        }
      }
    }
  }

  /** Splitting at a separator that follows a first line peels off that line. */
  lemma {:induction false} SplitAcross(a: string, c: char, b: string)
    requires c !in a
    ensures Split(a + [c] + b, c) == [a] + Split(b, c)
    decreases |a|
  {
    if a == [] {
      assert a + [c] + b == [c] + b;
      assert ([c] + b)[1..] == b;
    } else {
      assert (a + [c] + b)[0] == a[0];
      assert (a + [c] + b)[1..] == a[1..] + [c] + b;
      SplitAcross(a[1..], c, b);
      assert a == [a[0]] + a[1..];
    }
  }

  /** Concatenation of sequences is associative. */
  lemma SeqAppendAssoc<T>(x: seq<T>, y: seq<T>, z: seq<T>)
    ensures x + (y + z) == (x + y) + z
  {
  }

  /** Splitting a text made of two parts around one separator splits each part. */
  lemma {:induction false} SplitConcat(a: string, c: char, b: string)
    ensures Split(a + [c] + b, c) == Split(a, c) + Split(b, c)
    decreases |a|
  {
    var s := a + [c] + b;
    if a == [] {
      assert s == [c] + b;
      assert s[1..] == b;
    } else {
      assert s[0] == a[0];
      assert s[1..] == a[1..] + [c] + b;
      SplitConcat(a[1..], c, b);
      var u := Split(a[1..], c);
      var v := Split(b, c);
      var t := Split(s[1..], c);
      assert t == u + v;
      if a[0] == c {
        assert Split(s, c) == [""] + (u + v);
        assert Split(a, c) == [""] + u;
        SeqAppendAssoc([""], u, v);
      } else {
        assert t[0] == u[0];
        assert t[1..] == u[1..] + v;
        assert Split(s, c) == [[a[0]] + u[0]] + (u[1..] + v);
        assert Split(a, c) == [[a[0]] + u[0]] + u[1..];
        SeqAppendAssoc([[a[0]] + u[0]], u[1..], v);
      }
    }
  }

  /** Joined pieces contain everything each piece contains. */
  lemma {:induction false} JoinContainsPiece(pieces: seq<string>, c: char, k: nat, p: string)
    requires k < |pieces| && Contains(pieces[k], p)
    ensures Contains(Join(pieces, c), p)
    decreases |pieces|
  {
    if |pieces| > 1 {
      var tail := Join(pieces[1..], c);
      if k == 0 {
        ContainsInConcat(pieces[0], [c] + tail, p);
        assert pieces[0] + [c] + tail == pieces[0] + ([c] + tail);
      } else {
        JoinContainsPiece(pieces[1..], c, k - 1, p);
        ContainsInConcat(pieces[0] + [c], tail, p);
      }
    }
  }

  /** Each piece of a split is a slice of the text it came from. */
  lemma SplitPieceContained(s: string, c: char, k: nat, p: string)
    requires k < |Split(s, c)| && Contains(Split(s, c)[k], p)
    ensures Contains(s, p)
  {
    SplitJoin(s, c);
    JoinContainsPiece(Split(s, c), c, k, p);
  }

  /** Every character of a piece of a split is a character of the text. */
  lemma SplitPieceChar(s: string, c: char, k: nat, d: char)
    requires k < |Split(s, c)| && d in Split(s, c)[k]
    ensures d in s
  {
    var piece := Split(s, c)[k];
    var j :| 0 <= j < |piece| && piece[j] == d;
    assert Occurs(piece, [d], j);
    SplitPieceContained(s, c, k, [d]);
    OccursChars(s, [d]);
    var i := Find(s, [d]).value;
    assert s[i] == d;
  }

  /** The last index below `m` holding `c` (`s.rfind(c, 0, m)`). */
  function LastIndex(s: string, c: char, m: nat): (r: Option<nat>)
    requires m <= |s|
    decreases m
    ensures r.Some? ==> r.value < m && s[r.value] == c && forall j :: r.value < j < m ==> s[j] != c
    ensures r.None? ==> forall j :: 0 <= j < m ==> s[j] != c
  {
    if m == 0 then None
    else if s[m - 1] == c then Some(m - 1)
    else LastIndex(s, c, m - 1)
  }

  // ---------------------------------------------------------------------------
  // Slicing and case mapping
  // ---------------------------------------------------------------------------

  /** `s[:n]` */
  function Take(s: string, n: nat): (r: string)
    ensures |r| <= n && StartsWith(s, r)
    ensures |s| <= n ==> r == s
    ensures |s| > n ==> |r| == n
  {
    if |s| <= n then s else s[..n]
  }

  function LowerChar(c: char): char {
    if 'A' <= c <= 'Z' then (c as int + 32) as char else c
  }

  function UpperChar(c: char): char {
    if 'a' <= c <= 'z' then (c as int - 32) as char else c
  }

  /** `s.lower()` on ASCII letters; every other character is kept. */
  function Lower(s: string): (r: string)
    ensures |r| == |s| && forall i :: 0 <= i < |s| ==> r[i] == LowerChar(s[i])
  {
    seq(|s|, i requires 0 <= i < |s| => LowerChar(s[i]))
  }

  /** `s.upper()` on ASCII letters; every other character is kept. */
  function Upper(s: string): (r: string)
    ensures |r| == |s| && forall i :: 0 <= i < |s| ==> r[i] == UpperChar(s[i])
  {
    seq(|s|, i requires 0 <= i < |s| => UpperChar(s[i]))
  }

  /** Lowering twice is lowering once. */
  lemma LowerIdempotent(s: string)
    ensures Lower(Lower(s)) == Lower(s)
  {
  }

  /** Upper-casing ignores how the text was cased before. */
  lemma UpperOfLower(s: string)
    ensures Upper(Lower(s)) == Upper(s)
  {
  }

  /** An occurrence survives upper-casing: `p in s` implies `p.upper() in s.upper()`. */
  lemma UpperContains(s: string, p: string)
    ensures Contains(s, p) ==> Contains(Upper(s), Upper(p))
  {
    if Contains(s, p) {
      var i := Find(s, p).value;
      assert Upper(s)[i..i + |p|] == Upper(p) by {
        forall t | 0 <= t < |p|
          ensures Upper(s)[i..i + |p|][t] == Upper(p)[t]
        {
          assert s[i..i + |p|][t] == p[t];
        }
      }
      assert Occurs(Upper(s), Upper(p), i);
      ContainsIff(Upper(s), Upper(p));
    }
  }

  /** An occurrence survives lower-casing: `p in s` implies `p.lower() in s.lower()`. */
  lemma LowerContains(s: string, p: string)
    ensures Contains(s, p) ==> Contains(Lower(s), Lower(p))
  {
    if Contains(s, p) {
      var i := Find(s, p).value;
      assert Lower(s)[i..i + |p|] == Lower(p) by {
        forall t | 0 <= t < |p|
          ensures Lower(s)[i..i + |p|][t] == Lower(p)[t]
        {
          assert s[i..i + |p|][t] == p[t];
        }
      }
      assert Occurs(Lower(s), Lower(p), i);
      ContainsIff(Lower(s), Lower(p));
    }
  }

  predicate IsDigit(c: char) { '0' <= c <= '9' }

  /** The characters a timestamp such as `strftime("%Y%m%d_%H%M%S")` is made of. */
  predicate StampText(ts: string) {
    forall i :: 0 <= i < |ts| ==> IsDigit(ts[i]) || ts[i] == '_'
  }

  predicate IsAsciiLetter(c: char) { ('a' <= c <= 'z') || ('A' <= c <= 'Z') }
}
