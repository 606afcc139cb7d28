/**
 * `re.search(r'[\w.-]+@[\w.-]+\.\w+', text)`: the recipient address the agent
 * runner pulls out of an e-mail request. The search is modelled the way the
 * backtracking matcher runs it: start positions left to right, each `+`
 * greedy and giving characters back one at a time. The lemmas show that this
 * finds the leftmost match and, at that position, the longest one.
 */
module AddressPattern {
  import opened Wrappers

  /** `\w`, restricted to ASCII: a letter, a digit or `_`. */
  predicate IsWord(c: char) {
    ('a' <= c <= 'z') || ('A' <= c <= 'Z') || ('0' <= c <= '9') || c == '_'
  }

  /** `[\w.-]` */
  predicate IsAddrChar(c: char) {
    IsWord(c) || c == '.' || c == '-'
  }

  /** End of the longest run of `\w` characters starting at `i`. */
  function WordRunEnd(s: string, i: nat): (e: nat)
    requires i <= |s|
    decreases |s| - i
    ensures i <= e <= |s|
  {
    if i < |s| && IsWord(s[i]) then WordRunEnd(s, i + 1) else i
  }

  /** The run taken is all `\w` and stops at the end of the text or at a character that is not `\w`. */
  lemma {:induction false} WordRunShape(s: string, i: nat)
    requires i <= |s|
    decreases |s| - i
    ensures var e := WordRunEnd(s, i);
      (forall x :: i <= x < e ==> IsWord(s[x])) && (e == |s| || !IsWord(s[e]))
  {
    if i < |s| && IsWord(s[i]) {
      WordRunShape(s, i + 1);
    }
  }

  /** End of the longest run of `[\w.-]` characters starting at `i`. */
  function AddrRunEnd(s: string, i: nat): (e: nat)
    requires i <= |s|
    decreases |s| - i
    ensures i <= e <= |s|
  {
    if i < |s| && IsAddrChar(s[i]) then AddrRunEnd(s, i + 1) else i
  }

  /** The run taken is all `[\w.-]` and stops at the end of the text or at a character outside that class. */
  lemma {:induction false} AddrRunShape(s: string, i: nat)
    requires i <= |s|
    decreases |s| - i
    ensures var e := AddrRunEnd(s, i);
      (forall x :: i <= x < e ==> IsAddrChar(s[x])) && (e == |s| || !IsAddrChar(s[e]))
  {
    if i < |s| && IsAddrChar(s[i]) {
      AddrRunShape(s, i + 1);
    }
  }

  /** A `.` at `d` followed by a `\w` character: where `\.\w+` can begin. */
  predicate DotAt(s: string, d: int) {
    0 <= d && d + 1 < |s| && s[d] == '.' && IsWord(s[d + 1])
  }

  /**
   * The last `d` with `j < d < m` at which `\.\w+` can begin: the position
   * the greedy `[\w.-]+` of the domain gives characters back to.
   */
  function LastDot(s: string, j: nat, m: nat): (r: Option<nat>)
    requires m <= |s|
    decreases m
    ensures r.Some? ==> j < r.value < m
  {
    if m <= j + 1 then None
    else if DotAt(s, m - 1) then Some(m - 1)
    else LastDot(s, j, m - 1)
  }

  /** The position found is a `.` before a `\w`, and no later one in range is. */
  lemma {:induction false} LastDotShape(s: string, j: nat, m: nat)
    requires m <= |s|
    decreases m
    ensures LastDot(s, j, m).Some? ==> DotAt(s, LastDot(s, j, m).value)
    ensures forall d :: j < d < m && DotAt(s, d) ==> LastDot(s, j, m).Some? && d <= LastDot(s, j, m).value
  {
    if m > j + 1 && !DotAt(s, m - 1) {
      LastDotShape(s, j, m - 1);
    }
  }

  /** The text `s[k..e]` is an address: `[\w.-]+@[\w.-]+\.\w+` split at `at` and `dot`. */
  predicate SpanShape(s: string, k: int, at: int, dot: int, e: int) {
    0 <= k < at && at + 1 < dot && dot + 1 < e <= |s| && s[at] == '@' && s[dot] == '.'
    && (forall x :: k <= x < at ==> IsAddrChar(s[x]))
    && (forall x :: at < x < dot ==> IsAddrChar(s[x]))
    && (forall x :: dot < x < e ==> IsWord(s[x]))
  }

  /** The pattern matches `s[k..e]` as a whole. */
  ghost predicate MatchesSpan(s: string, k: int, e: int) {
    exists at, dot :: SpanShape(s, k, at, dot, e)
  }

  /** The end of the match the backtracking matcher finds when it starts at `k`. */
  function MatchAt(s: string, k: nat): (r: Option<nat>)
    requires k <= |s|
    ensures r.Some? ==> k < r.value <= |s|
  {
    var at := AddrRunEnd(s, k);
    if at == k || at == |s| || s[at] != '@' then None
    else
      var e2 := AddrRunEnd(s, at + 1);
      match LastDot(s, at + 1, e2)
      case None => None
      case Some(d) => Some(WordRunEnd(s, d + 1))
  }

  /** What the matcher finds at `k` is a match. */
  lemma MatchAtSound(s: string, k: nat)
    requires k <= |s| && MatchAt(s, k).Some?
    ensures MatchesSpan(s, k, MatchAt(s, k).value)
  {
    var at := AddrRunEnd(s, k);
    var e2 := AddrRunEnd(s, at + 1);
    var d := LastDot(s, at + 1, e2).value;
    var e := WordRunEnd(s, d + 1);
    AddrRunShape(s, k);
    AddrRunShape(s, at + 1);
    LastDotShape(s, at + 1, e2);
    WordRunShape(s, d + 1);
    assert SpanShape(s, k, at, d, e);
  }

  /** A run of `[\w.-]` characters ending before a character that is not one is exactly the run the matcher takes. */
  lemma {:induction false} AddrRunCovers(s: string, i: nat, j: nat)
    requires i <= j <= |s| && forall x :: i <= x < j ==> IsAddrChar(s[x])
    decreases j - i
    ensures j <= AddrRunEnd(s, i)
  {
    if i < j {
      AddrRunCovers(s, i + 1, j);
    }
  }

  /** The same for runs of `\w` characters. */
  lemma {:induction false} WordRunCovers(s: string, i: nat, j: nat)
    requires i <= j <= |s| && forall x :: i <= x < j ==> IsWord(s[x])
    decreases j - i
    ensures j <= WordRunEnd(s, i)
  {
    if i < j {
      WordRunCovers(s, i + 1, j);
    }
  }

  /** A match lies inside the text and is not empty. */
  lemma SpanInside(s: string, k: int, e: int)
    ensures MatchesSpan(s, k, e) ==> 0 <= k < e <= |s|
  {
    if MatchesSpan(s, k, e) {
      var at, dot :| SpanShape(s, k, at, dot, e);
    }
  }

  /**
   * Whenever the pattern matches `s[k..e]`, the matcher started at `k` finds
   * a match, and one at least as long.
   */
  lemma MatchAtComplete(s: string, k: nat, e: int)
    requires k <= |s|
    ensures MatchesSpan(s, k, e) ==> MatchAt(s, k).Some? && e <= MatchAt(s, k).value
  {
    if MatchesSpan(s, k, e) {
      var at, dot :| SpanShape(s, k, at, dot, e);
      AddrRunCovers(s, k, at);
      AddrRunShape(s, k);
      var a := AddrRunEnd(s, k);
      assert a == at;
      AddrRunCovers(s, at + 1, e);
      var e2 := AddrRunEnd(s, at + 1);
      assert DotAt(s, dot);
      LastDotShape(s, at + 1, e2);
      var d := LastDot(s, at + 1, e2).value;
      if d == dot {
        WordRunCovers(s, dot + 1, e);
      } else {
        assert d >= e;
      }
    }
  }

  /** The leftmost match at or after `from`, as its start and end. */
  function Search(s: string, from: nat): (r: Option<(nat, nat)>)
    requires from <= |s|
    decreases |s| - from
    ensures r.Some? ==> from <= r.value.0 < r.value.1 <= |s|
  {
    match MatchAt(s, from)
    case Some(e) => Some((from, e))
    case None => if from == |s| then None else Search(s, from + 1)
  }

  /** The search stops at the first start where the matcher succeeds. */
  lemma {:induction false} SearchFirst(s: string, from: nat, i: nat, e: nat)
    requires from <= |s| && Search(s, from) == Some((i, e))
    decreases |s| - from
    ensures MatchAt(s, i) == Some(e)
    ensures forall k :: from <= k < i ==> MatchAt(s, k).None?
  {
    if MatchAt(s, from).None? {
      SearchFirst(s, from + 1, i, e);
    }
  }

  /** A search that finds nothing passed every start. */
  lemma {:induction false} SearchNone(s: string, from: nat)
    requires from <= |s| && Search(s, from).None?
    decreases |s| - from
    ensures forall k :: from <= k <= |s| ==> MatchAt(s, k).None?
  {
    if from < |s| {
      SearchNone(s, from + 1);
    }
  }

  /**
   * `re.search`: the result is a match, no match starts further left, and
   * none at the same start is longer; with no result, there is no match at all.
   */
  lemma SearchLeftmostLongest(s: string)
    ensures Search(s, 0).Some? ==>
      var (i, e) := Search(s, 0).value;
      MatchesSpan(s, i, e)
      && (forall k, e' :: 0 <= k < i ==> !MatchesSpan(s, k, e'))
      && (forall e' :: MatchesSpan(s, i, e') ==> e' <= e)
    ensures Search(s, 0).None? ==> forall k, e' :: !MatchesSpan(s, k, e')
  {
    if Search(s, 0).Some? {
      SearchFirst(s, 0, Search(s, 0).value.0, Search(s, 0).value.1);
    } else {
      SearchNone(s, 0);
    }
    forall k: nat, e' | k <= |s|
      ensures MatchesSpan(s, k, e') ==> MatchAt(s, k).Some? && e' <= MatchAt(s, k).value
    {
      MatchAtComplete(s, k, e');
    }
    forall k, e'
      ensures MatchesSpan(s, k, e') ==> 0 <= k < |s|
    {
      SpanInside(s, k, e');
    }
    if Search(s, 0).Some? {
      MatchAtSound(s, Search(s, 0).value.0);
    }
  }

  const FALLBACK := "unknown@email.com"

  /** `email_match.group() if email_match else "unknown@email.com"` */
  function ExtractAddress(content: string): string {
    match Search(content, 0)
    case Some((i, e)) => content[i..e]
    case None => FALLBACK
  }

  /** Every character of a match is `\w`, `.`, `-` or the one `@`. */
  lemma SpanChars(s: string, k: int, e: int)
    requires MatchesSpan(s, k, e)
    ensures forall x :: k <= x < e ==> IsAddrChar(s[x]) || s[x] == '@'
  {
    var at, dot :| SpanShape(s, k, at, dot, e);
  }

  /**
   * The recipient is the leftmost-longest match, or the fallback when there
   * is none; either way it is at least five characters of `[\w.-]` and `@`.
   */
  lemma ExtractAddressShape(content: string)
    ensures var r := ExtractAddress(content);
      |r| >= 5 && forall x :: 0 <= x < |r| ==> IsAddrChar(r[x]) || r[x] == '@'
    ensures Search(content, 0).None? ==> ExtractAddress(content) == FALLBACK
    ensures Search(content, 0).Some? ==> MatchesSpan(content, Search(content, 0).value.0, Search(content, 0).value.1)
  {
    SearchLeftmostLongest(content);
    if Search(content, 0).Some? {
      var (i, e) := Search(content, 0).value;
      SpanChars(content, i, e);
      var at, dot :| SpanShape(content, i, at, dot, e);
    } else {
      assert FALLBACK == "unknown" + "@" + "email" + "." + "com";
    }
  }
}
