/**
 * The LinkedIn poster: it picks the newest finished items as context, asks
 * the model for a post, refuses a reply that reports an error, and saves
 * the post as a draft in the approval folder, in the format the approval
 * handler reads back as a `LINKEDIN_POST` action.
 */
module LinkedInPoster {
  import opened Wrappers
  import opened Text
  import opened Vault
  import opened ApprovalHandler
  import AgentRunner

  // ---------------------------------------------------------------------------
  // call_qwen
  // ---------------------------------------------------------------------------

  /**
   * `call_qwen`: the output of the call, stripped, whatever its return code;
   * a call that raises gives `[ERROR] ` and the exception's text.
   */
  function PosterReply(r: AgentRunner.CliResult): string {
    match r
    case Completed(_, out, _) => Strip(out)
    case CallFailed(e) => AgentRunner.ERROR_PREFIX + e
  }

  /** The text whose presence makes `main` give up. */
  const ERROR_TAG := "[ERROR]"

  /** `"[ERROR]" in post` */
  predicate Blocked(post: string) {
    Contains(post, ERROR_TAG)
  }

  /**
   * A completed call gives its stripped output, the return code and the
   * standard error playing no part; a call that raises is always blocked.
   * Unlike the agent runner, an empty output is not turned into an error:
   * a blank reply gives the empty post, which passes the gate.
   */
  lemma PosterReplyShape(r: AgentRunner.CliResult)
    ensures r.Completed? ==> Trimmed(PosterReply(r)) && PosterReply(r) == PosterReply(AgentRunner.Completed(0, r.stdout, ""))
    ensures r.CallFailed? ==> Blocked(PosterReply(r))
    ensures r.Completed? && Blank(r.stdout) ==> PosterReply(r) == "" && !Blocked(PosterReply(r))
  {
    if r.CallFailed? {
      var post := PosterReply(r);
      assert post == ERROR_TAG + (" " + r.error);
      assert StartsWith(post, ERROR_TAG);
      StartsWithContains(post, ERROR_TAG);
    } else if Blank(r.stdout) {
      StripEmptyIffBlank(r.stdout);
      assert !Occurs("", ERROR_TAG, 0);
      ContainsIff("", ERROR_TAG);
    }
  }

  // ---------------------------------------------------------------------------
  // get_recent_activity
  // ---------------------------------------------------------------------------

  /** An entry of `Done` as `iterdir` lists it, with its name. */
  type Listed = (string, Entry)

  /** No entry is newer than one before it. */
  predicate NewestFirst(s: seq<Listed>) {
    forall i, j :: 0 <= i < j < |s| ==> s[i].1.mtime >= s[j].1.mtime
  }

  /** Insertion of `x` into a newest-first list, after the entries at least as new. */
  function InsertByRecency(x: Listed, s: seq<Listed>): (r: seq<Listed>)
    ensures |r| == |s| + 1
    decreases |s|
  {
    if s == [] || x.1.mtime > s[0].1.mtime then [x] + s
    else [s[0]] + InsertByRecency(x, s[1..])
  }

  /**
   * `sorted(entries, key=lambda x: x.stat().st_mtime, reverse=True)`: each
   * entry is inserted after the ones before it with the same time, as the
   * stable sort keeps them.
   */
  function ByRecency(l: seq<Listed>): (r: seq<Listed>)
    ensures |r| == |l|
    decreases |l|
  {
    if l == [] then [] else InsertByRecency(l[|l| - 1], ByRecency(l[..|l| - 1]))
  }

  /** No entry of `s` is newer than `m`. */
  predicate NoNewerThan(s: seq<Listed>, m: int) {
    forall j :: 0 <= j < |s| ==> s[j].1.mtime <= m
  }

  /** Inserting an entry no newer than `m` into entries no newer than `m` keeps that bound. */
  lemma {:induction false} InsertKeepsBound(x: Listed, s: seq<Listed>, m: int)
    requires NoNewerThan(s, m) && x.1.mtime <= m
    decreases |s|
    ensures NoNewerThan(InsertByRecency(x, s), m)
  {
    if s != [] && x.1.mtime <= s[0].1.mtime {
      InsertKeepsBound(x, s[1..], m);
      var t := InsertByRecency(x, s[1..]);
      assert forall j :: 0 < j < |t| + 1 ==> InsertByRecency(x, s)[j] == t[j - 1];
    }
  }

  /** An entry at least as new as every entry of a newest-first list can go in front of it. */
  lemma NewestFirstCons(h: Listed, t: seq<Listed>)
    requires NewestFirst(t) && NoNewerThan(t, h.1.mtime)
    ensures NewestFirst([h] + t)
  {
    var r := [h] + t;
    forall i, j | 0 <= i < j < |r|
      ensures r[i].1.mtime >= r[j].1.mtime
    {
      assert r[j] == t[j - 1];
      if i > 0 {
        assert r[i] == t[i - 1];
      }
    }
  }

  /** Inserting adds exactly `x`, into any list. */
  lemma {:induction false} InsertAddsOne(x: Listed, s: seq<Listed>)
    decreases |s|
    ensures multiset(InsertByRecency(x, s)) == multiset(s) + multiset{x}
  {
    if s != [] && x.1.mtime <= s[0].1.mtime {
      InsertAddsOne(x, s[1..]);
      assert s == [s[0]] + s[1..];
    }
  }

  /** The tail of a newest-first list is newest first. */
  lemma NewestFirstTail(s: seq<Listed>)
    requires NewestFirst(s) && s != []
    ensures NewestFirst(s[1..])
  {
    forall i, j | 0 <= i < j < |s[1..]|
      ensures s[1..][i].1.mtime >= s[1..][j].1.mtime
    {
      assert s[1..][i] == s[i + 1] && s[1..][j] == s[j + 1];
    }
  }

  /** Inserting keeps the list newest first and adds exactly `x`. */
  lemma {:induction false} InsertByRecencySorted(x: Listed, s: seq<Listed>)
    requires NewestFirst(s)
    decreases |s|
    ensures NewestFirst(InsertByRecency(x, s))
    ensures multiset(InsertByRecency(x, s)) == multiset(s) + multiset{x}
  {
    if s == [] || x.1.mtime > s[0].1.mtime {
      if s != [] {
        assert NoNewerThan(s, x.1.mtime) by {
          forall j | 0 <= j < |s|
            ensures s[j].1.mtime <= x.1.mtime
          {
            if j > 0 {
              assert s[0].1.mtime >= s[j].1.mtime;
            }
          }
        }
      }
      NewestFirstCons(x, s);
    } else {
      var t := InsertByRecency(x, s[1..]);
      NewestFirstTail(s);
      InsertByRecencySorted(x, s[1..]);
      assert NoNewerThan(s[1..], s[0].1.mtime) by {
        forall j | 0 <= j < |s[1..]|
          ensures s[1..][j].1.mtime <= s[0].1.mtime
        {
          assert s[1..][j] == s[j + 1];
        }
      }
      InsertKeepsBound(x, s[1..], s[0].1.mtime);
      NewestFirstCons(s[0], t);
    }
    InsertAddsOne(x, s);
  }

  /** The sorted entries are newest first. */
  lemma {:induction false} ByRecencyNewestFirst(l: seq<Listed>)
    decreases |l|
    ensures NewestFirst(ByRecency(l))
  {
    if l != [] {
      var n := |l| - 1;
      ByRecencyNewestFirst(l[..n]);
      InsertByRecencySorted(l[n], ByRecency(l[..n]));
    }
  }

  /** The sorted entries are the listed entries rearranged. */
  lemma {:induction false} ByRecencyPermutes(l: seq<Listed>)
    decreases |l|
    ensures multiset(ByRecency(l)) == multiset(l)
  {
    if l != [] {
      var n := |l| - 1;
      var front := l[..n];
      ByRecencyPermutes(front);
      InsertAddsOne(l[n], ByRecency(front));
      assert l == front + [l[n]];
      assert multiset(l) == multiset(front) + multiset([l[n]]);
    }
  }

  /** The sorted entries, newest first, are the listed entries rearranged. */
  lemma ByRecencySorted(l: seq<Listed>)
    ensures NewestFirst(ByRecency(l))
    ensures multiset(ByRecency(l)) == multiset(l)
  {
    ByRecencyNewestFirst(l);
    ByRecencyPermutes(l);
  }

  /** The entries of `s` with time `m`, in their order in `s`. */
  function AtTime(s: seq<Listed>, m: int): seq<Listed>
    decreases |s|
  {
    if s == [] then [] else (if s[0].1.mtime == m then [s[0]] else []) + AtTime(s[1..], m)
  }

  /** Picking the entries with one time from two lists one after the other. */
  lemma {:induction false} AtTimeAppend(a: seq<Listed>, b: seq<Listed>, m: int)
    decreases |a|
    ensures AtTime(a + b, m) == AtTime(a, m) + AtTime(b, m)
  {
    if a != [] {
      assert (a + b)[1..] == a[1..] + b;
      AtTimeAppend(a[1..], b, m);
    } else {
      assert a + b == b;
    }
  }

  /** Entries all older than `m` hold none with time `m`. */
  lemma {:induction false} AtTimeOlder(s: seq<Listed>, m: int)
    requires forall j :: 0 <= j < |s| ==> s[j].1.mtime < m
    decreases |s|
    ensures AtTime(s, m) == []
  {
    if s != [] {
      assert forall j :: 0 <= j < |s[1..]| ==> s[1..][j] == s[j + 1];
      AtTimeOlder(s[1..], m);
    }
  }

  /** Insertion puts `x` after every entry with its time. */
  lemma {:induction false} InsertAtTime(x: Listed, s: seq<Listed>, m: int)
    requires NewestFirst(s)
    decreases |s|
    ensures AtTime(InsertByRecency(x, s), m) == AtTime(s, m) + (if x.1.mtime == m then [x] else [])
  {
    if s == [] || x.1.mtime > s[0].1.mtime {
      assert ([x] + s)[1..] == s;
      if x.1.mtime == m && s != [] {
        assert forall j :: 0 <= j < |s| ==> s[j].1.mtime <= s[0].1.mtime;
        AtTimeOlder(s, m);
      }
    } else {
      NewestFirstTail(s);
      InsertAtTime(x, s[1..], m);
      var t := InsertByRecency(x, s[1..]);
      assert ([s[0]] + t)[1..] == t;
    }
  }

  /**
   * The sort is stable: the entries with one time come out in the order
   * `iterdir` listed them.
   */
  lemma {:induction false} ByRecencyStable(l: seq<Listed>, m: int)
    decreases |l|
    ensures AtTime(ByRecency(l), m) == AtTime(l, m)
  {
    if l != [] {
      var n := |l| - 1;
      ByRecencyStable(l[..n], m);
      ByRecencySorted(l[..n]);
      InsertAtTime(l[n], ByRecency(l[..n]), m);
      assert l == l[..n] + [l[n]];
      AtTimeAppend(l[..n], [l[n]], m);
      assert [l[n]][1..] == [];
    }
  }

  /** How many entries `[:3]` keeps. */
  const RECENT_COUNT := 3

  /** `sorted(...)[:3]` */
  function Selected(l: seq<Listed>): seq<Listed> {
    var sorted := ByRecency(l);
    if |sorted| <= RECENT_COUNT then sorted else sorted[..RECENT_COUNT]
  }

  /**
   * The selection holds the three newest entries (all of them when there are
   * fewer), newest first, and is the front of the sorted entries, which are
   * the listed ones rearranged: every entry left out is no newer than any chosen.
   */
  lemma SelectedNewest(l: seq<Listed>)
    ensures var sel := Selected(l);
      var sorted := ByRecency(l);
      && |sel| == (if |l| <= RECENT_COUNT then |l| else RECENT_COUNT)
      && sel == sorted[..|sel|]
      && NewestFirst(sel)
      && multiset(sorted) == multiset(l)
      && forall i, j :: 0 <= i < |sel| <= j < |sorted| ==> sorted[j].1.mtime <= sel[i].1.mtime
  {
    ByRecencySorted(l);
    var sorted := ByRecency(l);
    var sel := Selected(l);
    assert forall i :: 0 <= i < |sel| ==> sel[i] == sorted[i];
  }

  /** `Path.suffix`: from the last dot, when that dot is neither first nor last. */
  function PathSuffix(name: string): string {
    match LastIndex(name, '.', |name|)
    case None => ""
    case Some(i) => if 0 < i < |name| - 1 then name[i..] else ""
  }

  /** `f.suffix in [".txt", ".md"]` */
  predicate HasActivitySuffix(name: string) {
    PathSuffix(name) == ".txt" || PathSuffix(name) == ".md"
  }

  /**
   * For an extension made of a dot and dot-free characters, the suffix is
   * that extension exactly when the name ends with it after at least one
   * other character.
   */
  lemma PathSuffixIs(name: string, ext: string)
    requires |ext| >= 2 && ext[0] == '.' && forall k :: 0 < k < |ext| ==> ext[k] != '.'
    ensures PathSuffix(name) == ext <==> |name| > |ext| && name[|name| - |ext|..] == ext
  {
    var n := |name|;
    var m := |ext|;
    if n > m && name[n - m..] == ext {
      assert name[n - m] == '.';
      assert forall j :: n - m < j < n ==> name[j] == ext[j - (n - m)];
      var i := LastIndex(name, '.', n).value;
      assert i == n - m;
    }
    if PathSuffix(name) == ext {
      var i := LastIndex(name, '.', n).value;
      assert name[i..] == ext;
    }
  }

  /** The suffix test accepts exactly the names ending in `.txt` or `.md` after at least one character. */
  lemma ActivitySuffixIff(name: string)
    ensures HasActivitySuffix(name) <==>
      (|name| > 4 && name[|name| - 4..] == ".txt") || (|name| > 3 && name[|name| - 3..] == ".md")
  {
    PathSuffixIs(name, ".txt");
    PathSuffixIs(name, ".md");
  }

  /** How much of each item's content a summary line quotes. */
  const QUOTE_LENGTH := 200

  /** `f"- {f.name}: {content[:200]}"` */
  function Summary(name: string, content: string): string {
    "- " + name + ": " + Take(content, QUOTE_LENGTH)
  }

  /** The text `read_text` raises with when the entry is a directory. */
  const IS_A_DIRECTORY := "Is a directory: "

  /** The entry contributes a summary line. */
  predicate Chosen(f: Listed) {
    HasActivitySuffix(f.0) && f.1.File?
  }

  /**
   * The summary lines of the loop over `files`, in order; reading an entry
   * with a matching suffix that is a directory raises, and the loop stops.
   */
  function SummariesOf(files: seq<Listed>): Result<seq<string>>
    decreases |files|
  {
    if files == [] then Ok([])
    else
      var prev := SummariesOf(files[..|files| - 1]);
      var f := files[|files| - 1];
      if prev.Raised? || !HasActivitySuffix(f.0) then prev
      else if f.1.Dir? then Raised(IS_A_DIRECTORY + f.0)
      else Ok(prev.value + [Summary(f.0, f.1.content)])
  }

  /** Once an entry has raised, the rest of the loop does not change the outcome. */
  lemma {:induction false} RaisedPersists(files: seq<Listed>, k: nat)
    requires k <= |files| && SummariesOf(files[..k]).Raised?
    decreases |files| - k
    ensures SummariesOf(files) == SummariesOf(files[..k])
  {
    if k < |files| {
      assert files[..k + 1][..k] == files[..k];
      RaisedPersists(files, k + 1);
    } else {
      assert files[..k] == files;
    }
  }

  /** The loop raises exactly when some entry with a matching suffix is a directory. */
  lemma {:induction false} SummariesRaise(files: seq<Listed>)
    decreases |files|
    ensures SummariesOf(files).Raised? <==> exists j :: 0 <= j < |files| && HasActivitySuffix(files[j].0) && files[j].1.Dir?
  {
    if files != [] {
      var n := |files| - 1;
      var init := files[..n];
      SummariesRaise(init);
      assert forall j :: 0 <= j < n ==> init[j] == files[j];
      if SummariesOf(init).Raised? {
        var j :| 0 <= j < n && HasActivitySuffix(init[j].0) && init[j].1.Dir?;
        assert files[j] == init[j];
      }
    }
  }

  /** The line is the summary of a chosen entry of `files`. */
  predicate ChosenLine(line: string, files: seq<Listed>) {
    exists j :: 0 <= j < |files| && Chosen(files[j]) && line == Summary(files[j].0, files[j].1.content)
  }

  /** Without an error, there is at most one line per entry, and each line is the summary of a chosen entry. */
  lemma {:induction false} SummariesSound(files: seq<Listed>)
    decreases |files|
    ensures SummariesOf(files).Ok? ==>
      var v := SummariesOf(files).value;
      |v| <= |files| && forall k :: 0 <= k < |v| ==> ChosenLine(v[k], files)
  {
    if files != [] && SummariesOf(files).Ok? {
      var n := |files| - 1;
      var init := files[..n];
      SummariesSound(init);
      var pv := SummariesOf(init).value;
      var f := files[n];
      var v := SummariesOf(files).value;
      assert SummariesOf(init).Ok?;
      forall k | 0 <= k < |pv|
        ensures ChosenLine(pv[k], files)
      {
        assert ChosenLine(pv[k], init);
        var j :| 0 <= j < |init| && Chosen(init[j]) && pv[k] == Summary(init[j].0, init[j].1.content);
        assert files[j] == init[j];
      }
      if v != pv {
        var last := Summary(f.0, f.1.content);
        assert Chosen(f) && v == pv + [last];
        forall k | 0 <= k < |v|
          ensures ChosenLine(v[k], files)
        {
          if k < |pv| {
            assert v[k] == pv[k];
          } else {
            assert v[k] == last;
          }
        }
      }
    }
  }

  /** Without an error, every chosen entry has its summary line. */
  lemma {:induction false} SummariesComplete(files: seq<Listed>)
    decreases |files|
    ensures SummariesOf(files).Ok? ==>
      forall j :: 0 <= j < |files| && Chosen(files[j]) ==> Summary(files[j].0, files[j].1.content) in SummariesOf(files).value
  {
    if files != [] && SummariesOf(files).Ok? {
      var n := |files| - 1;
      var init := files[..n];
      SummariesComplete(init);
      var prev := SummariesOf(init);
      var f := files[n];
      var v := SummariesOf(files).value;
      assert prev.Ok?;
      assert v == prev.value || (Chosen(f) && v == prev.value + [Summary(f.0, f.1.content)]);
      forall j | 0 <= j < |files| && Chosen(files[j])
        ensures Summary(files[j].0, files[j].1.content) in v
      {
        if j < n {
          assert files[j] == init[j];
          assert Summary(init[j].0, init[j].1.content) in prev.value;
        } else {
          assert files[j] == f;
        }
      }
    }
  }

  /** The answer when no entry gives a summary line. */
  const NO_ACTIVITY := "No recent activity found."

  /** `get_recent_activity()` for the entries of `Done` in the order `iterdir` lists them. */
  function RecentActivity(listing: seq<Listed>): Result<string> {
    match SummariesOf(Selected(listing))
    case Raised(e) => Raised(e)
    case Ok(lines) => Ok(if lines == [] then NO_ACTIVITY else Join(lines, '\n'))
  }

  /** Joined pieces start with the first piece. */
  lemma JoinStartsWithFirst(pieces: seq<string>, c: char)
    requires pieces != []
    ensures StartsWith(Join(pieces, c), pieces[0])
  {
    if |pieces| == 1 {
      assert pieces[0][..|pieces[0]|] == pieces[0];
    } else {
      StartsWithFirst(pieces[0], [c], Join(pieces[1..], c));
    }
  }

  /**
   * The activity text is the fallback sentence exactly when none of the
   * three newest entries gives a line; otherwise it is their lines joined
   * by line breaks, at most three of them.
   */
  lemma RecentActivityShape(listing: seq<Listed>)
    ensures var r := RecentActivity(listing);
      var s := SummariesOf(Selected(listing));
      && (r.Raised? <==> s.Raised?)
      && (s.Ok? ==> |s.value| <= RECENT_COUNT)
      && (s.Ok? && s.value == [] ==> r == Ok(NO_ACTIVITY))
      && (s.Ok? && s.value != [] ==> r == Ok(Join(s.value, '\n')) && r.value != NO_ACTIVITY)
  {
    SelectedNewest(listing);
    var sel := Selected(listing);
    SummariesRaise(sel);
    SummariesSound(sel);
    var s := SummariesOf(sel);
    if s.Ok? && s.value != [] {
      var j :| 0 <= j < |sel| && Chosen(sel[j]) && s.value[0] == Summary(sel[j].0, sel[j].1.content);
      JoinStartsWithFirst(s.value, '\n');
      var joined := Join(s.value, '\n');
      assert joined[0] == s.value[0][0] == '-';
      assert NO_ACTIVITY[0] == 'N';
    }
  }

  /** One more entry of the loop: nothing, a summary line, or the error of a directory. */
  lemma SummariesStep(files: seq<Listed>, i: nat, lines: seq<string>)
    requires i < |files| && SummariesOf(files[..i]) == Ok(lines)
    ensures var (name, entry) := files[i];
      SummariesOf(files[..i + 1])
      == if !HasActivitySuffix(name) then Ok(lines)
         else if entry.Dir? then Raised(IS_A_DIRECTORY + name)
         else Ok(lines + [Summary(name, entry.content)])
  {
    assert files[..i + 1][..i] == files[..i] && files[..i + 1][i] == files[i];
  }

  /** The loop of `get_recent_activity` over the selected entries. */
  method GetRecentActivity(listing: seq<Listed>) returns (r: Result<string>)
    ensures r == RecentActivity(listing)
  {
    var files := Selected(listing);
    var summaries: seq<string> := [];
    var i := 0;
    while i < |files|
      invariant 0 <= i <= |files|
      invariant SummariesOf(files[..i]) == Ok(summaries)
    {
      var name := files[i].0;
      var entry := files[i].1;
      SummariesStep(files, i, summaries);
      if HasActivitySuffix(name) {
        if entry.Dir? {
          RaisedPersists(files, i + 1);
          assert files[..|files|] == files;
          assert SummariesOf(files) == Raised(IS_A_DIRECTORY + name);
          return Raised(IS_A_DIRECTORY + name);
        }
        summaries := summaries + [Summary(name, entry.content)];
      }
      i := i + 1;
    }
    assert files[..i] == files;
    assert SummariesOf(files) == Ok(summaries);
    r := Ok(if summaries == [] then NO_ACTIVITY else Join(summaries, '\n'));
  }

  // ---------------------------------------------------------------------------
  // save_for_approval
  // ---------------------------------------------------------------------------

  const POST_PREFIX := "LINKEDIN_POST_"
  const MD := ".md"

  /** `f"LINKEDIN_POST_{date_str}.md"`, with `date_str` from `"%Y%m%d_%H%M"`. */
  function PostName(date: string): string {
    POST_PREFIX + date + MD
  }

  const TITLE := "# \U{1F4BC} LinkedIn Post Draft \U{2014} Awaiting Approval"
  const CREATED_FIELD := "**Created:** "
  const ACTION_LINE := "**Action:** LINKEDIN_POST"
  const RULE_LINE := "---"
  const POST_HEADING := "## Post Content:"
  const INSTRUCTIONS := "## Instructions:"
  const POST_HINT := "\U{2705} To POST: Rename this file to \U{2192} `APPROVED_"
  const SKIP_HINT := "\U{274C} To SKIP: Rename this file to \U{2192} `REJECTED_"
  const CLOSE_QUOTE := "`"
  const CLOSING_START := "The approval_handler.py will "
  const CLOSING_END := "detect the rename and act automatically."
  const CLOSING := CLOSING_START + CLOSING_END

  /** The draft `save_for_approval` writes; `created` is the `"%Y-%m-%d %H:%M:%S"` time. */
  function RenderPostDraft(created: string, post: string, filename: string): string {
    TITLE + "\n" + CREATED_FIELD + created + "\n" + ACTION_LINE + "\n" + "\n"
    + RULE_LINE + "\n" + "\n" + POST_HEADING + "\n" + post + "\n" + "\n"
    + RULE_LINE + "\n" + "\n" + INSTRUCTIONS + "\n"
    + POST_HINT + filename + CLOSE_QUOTE + "\n" + SKIP_HINT + filename + CLOSE_QUOTE + "\n" + "\n"
    + CLOSING + "\n"
  }

  // ---------------------------------------------------------------------------
  // The saved draft read back by the approval handler
  // ---------------------------------------------------------------------------

  /** The lines before the post heading. */
  function PostTop(created: string): string {
    TITLE + "\n" + CREATED_FIELD + created + "\n" + ACTION_LINE + "\n" + "\n" + RULE_LINE + "\n" + "\n"
  }

  /** The two rename instructions and the closing sentence. */
  function Hints(filename: string): string {
    POST_HINT + filename + CLOSE_QUOTE + "\n" + SKIP_HINT + filename + CLOSE_QUOTE + "\n" + "\n" + CLOSING + "\n"
  }

  /** What follows the post and its blank line: the rule, the instructions heading and the hints. */
  function PostFooter(filename: string): string {
    RULE_LINE + ("\n" + "\n" + INSTRUCTIONS + "\n" + Hints(filename))
  }

  /** Appending the hint pieces one by one is appending the hints, over arbitrary pieces. */
  lemma AppendHints(head: string, pt: string, fname: string, q: string, sh: string, cl: string)
    ensures head + pt + fname + q + "\n" + sh + fname + q + "\n" + "\n" + cl + "\n"
      == head + (pt + fname + q + "\n" + sh + fname + q + "\n" + "\n" + cl + "\n")
  {
  }

  /** The draft's tail regrouped as a section, over arbitrary pieces. */
  lemma RegroupPostSection(top: string, ph: string, post: string, rl: string, ins: string, hints: string)
    ensures top + ph + "\n" + post + "\n" + "\n" + rl + "\n" + "\n" + ins + "\n" + hints
      == top + ph + "\n" + post + "\n\n" + (rl + ("\n" + "\n" + ins + "\n" + hints))
  {
    assert "\n" + "\n" == "\n\n";
  }

  /** The draft as a post section between the top lines and the footer. */
  lemma PostLayout(created: string, post: string, filename: string)
    ensures RenderPostDraft(created, post, filename)
      == PostTop(created) + POST_HEADING + "\n" + post + "\n\n" + PostFooter(filename)
  {
    var head := PostTop(created) + POST_HEADING + "\n" + post + "\n" + "\n" + RULE_LINE + "\n" + "\n" + INSTRUCTIONS + "\n";
    AppendHints(head, POST_HINT, filename, CLOSE_QUOTE, SKIP_HINT, CLOSING);
    RegroupPostSection(PostTop(created), POST_HEADING, post, RULE_LINE, INSTRUCTIONS, Hints(filename));
  }

  /** The draft's fixed texts are the handler's markers. */
  lemma PostSharedMarkers()
    ensures POST_HEADING == POST_MARKER && RULE_LINE == RULE
  {
  }

  /** The post marker: one line, no self-overlap, `#` first and `P` at index 3. */
  lemma PostMarkerFacts()
    ensures Lacks(POST_MARKER, '\n') && Unbordered(POST_MARKER)
    ensures |POST_MARKER| > 3 && POST_MARKER[0] == '#' && POST_MARKER[3] == 'P'
  {
    UnborderedByLastChar(POST_MARKER);
  }

  // The characters the fixed texts of the footer do without.

  lemma PostHintLacks()
    ensures Lacks(POST_HINT, '#')
  {
  }

  lemma SkipHintLacks()
    ensures Lacks(SKIP_HINT, '#')
  {
  }

  lemma ClosingStartLacks()
    ensures Lacks(CLOSING_START, '#')
  {
  }

  lemma ClosingEndLacks()
    ensures Lacks(CLOSING_END, '#')
  {
  }

  lemma ClosingLacks()
    ensures Lacks(CLOSING, '#')
  {
    ClosingStartLacks();
    ClosingEndLacks();
    LacksAppend(CLOSING_START, CLOSING_END, '#');
  }

  lemma ShortPostTextsLack()
    ensures Lacks(CLOSE_QUOTE, '#') && Lacks(POST_PREFIX, '#') && Lacks(MD, '#') && Lacks("\n", '#')
    ensures Lacks(RULE_LINE, '#') && Lacks(INSTRUCTIONS, 'P')
  {
  }

  /** A character none of the pieces holds is absent from the hints. */
  lemma LacksHintsShape(pt: string, prefix: string, date: string, md: string, q: string, sh: string, cl: string, c: char)
    requires Lacks(pt, c) && Lacks(prefix, c) && Lacks(date, c) && Lacks(md, c) && Lacks(q, c)
    requires Lacks(sh, c) && Lacks(cl, c) && Lacks("\n", c)
    ensures var fname := prefix + date + md;
      Lacks(pt + fname + q + "\n" + sh + fname + q + "\n" + "\n" + cl + "\n", c)
  {
    var fname := prefix + date + md;
    LacksAppend(prefix, date, c);
    LacksAppend(prefix + date, md, c);
    LacksAppend(pt, fname, c);
    LacksAppend(pt + fname, q, c);
    LacksAppend(pt + fname + q, "\n", c);
    LacksAppend(pt + fname + q + "\n", sh, c);
    LacksAppend(pt + fname + q + "\n" + sh, fname, c);
    LacksAppend(pt + fname + q + "\n" + sh + fname, q, c);
    LacksAppend(pt + fname + q + "\n" + sh + fname + q, "\n", c);
    LacksAppend(pt + fname + q + "\n" + sh + fname + q + "\n", "\n", c);
    LacksAppend(pt + fname + q + "\n" + sh + fname + q + "\n" + "\n", cl, c);
    LacksAppend(pt + fname + q + "\n" + sh + fname + q + "\n" + "\n" + cl, "\n", c);
  }

  /** The hints hold no `#`, given a date of digits and underscores. */
  lemma HintsLackHash(date: string)
    requires StampText(date)
    ensures Lacks(Hints(PostName(date)), '#')
  {
    PostHintLacks();
    SkipHintLacks();
    ClosingLacks();
    ShortPostTextsLack();
    assert Lacks(date, '#') by {
      forall i | 0 <= i < |date|
        ensures date[i] != '#'
      {
        assert IsDigit(date[i]) || date[i] == '_';
      }
    }
    LacksHintsShape(POST_HINT, POST_PREFIX, date, MD, CLOSE_QUOTE, SKIP_HINT, CLOSING, '#');
  }

  /**
   * A footer made of lines that do not hold a one-line marker does not hold
   * it, and starts with its rule; over arbitrary pieces.
   */
  lemma FooterShape(rl: string, ins: string, hints: string, p: string)
    requires p != [] && Lacks(p, '\n')
    requires !Contains(rl, p) && !Contains(ins, p) && !Contains(hints, p)
    ensures !Contains(rl + ("\n" + "\n" + ins + "\n" + hints), p)
    ensures StartsWith(rl + ("\n" + "\n" + ins + "\n" + hints), rl)
  {
    LacksNotIn(p, '\n');
    ContainsIff("", p);
    var x1 := ins + "\n" + hints;
    ContainsAcross(ins, '\n', hints, p);
    var x2 := "" + "\n" + x1;
    ContainsAcross("", '\n', x1, p);
    ContainsAcross(rl, '\n', x2, p);
    assert rl + ("\n" + "\n" + ins + "\n" + hints) == rl + "\n" + x2;
    assert (rl + ("\n" + "\n" + ins + "\n" + hints))[..|rl|] == rl;
  }

  /** The footer of a saved draft does not hold the post marker and starts with the rule. */
  lemma PostFooterFacts(date: string)
    requires StampText(date)
    ensures !Contains(PostFooter(PostName(date)), POST_MARKER)
    ensures StartsWith(PostFooter(PostName(date)), RULE)
  {
    PostMarkerFacts();
    ShortPostTextsLack();
    HintsLackHash(date);
    LacksMarker(RULE_LINE, POST_MARKER, 0);
    LacksMarker(INSTRUCTIONS, POST_MARKER, 3);
    LacksMarker(Hints(PostName(date)), POST_MARKER, 0);
    PostSharedMarkers();
    FooterShape(RULE_LINE, INSTRUCTIONS, Hints(PostName(date)), POST_MARKER);
  }

  /**
   * `parse_action_file` on a saved draft gives a `LINKEDIN_POST` action
   * whose post is the stripped post, whatever the post holds besides a post
   * heading or a `---` (slide dividers would cut it short).
   */
  lemma PostDraftRoundTrip(created: string, post: string, date: string)
    requires StampText(date)
    requires !Contains(post, POST_MARKER) && !Contains(post, RULE)
    ensures var content := RenderPostDraft(created, post, PostName(date));
      && Contains(content, POST_MARKER)
      && Parse(content).kind == LINKEDIN_POST
      && Parse(content).postContent == Strip(post)
  {
    var filename := PostName(date);
    PostLayout(created, post, filename);
    PostFooterFacts(date);
    PostSectionParses(RenderPostDraft(created, post, filename), PostTop(created), post, PostFooter(filename));
  }

  /** A file made of a post section followed by a rule parses as that post; over arbitrary pieces. */
  lemma PostSectionParses(content: string, top: string, post: string, footer: string)
    requires content == top + POST_MARKER + "\n" + post + "\n\n" + footer
    requires !Contains(post, POST_MARKER) && !Contains(post, RULE)
    requires !Contains(footer, POST_MARKER) && StartsWith(footer, RULE)
    ensures Contains(content, POST_MARKER)
    ensures Parse(content).kind == LINKEDIN_POST && Parse(content).postContent == Strip(post)
  {
    PostMarkerFacts();
    SecondPieceContained(top, POST_MARKER, "\n", post, "\n\n", footer);
    ExtractSection(top, POST_MARKER, post, footer);
    ParsePost(content);
  }

  /**
   * Approving a saved draft: the handler as written raises at its import of
   * the LinkedIn executor; the corrected handler publishes the stripped post.
   */
  lemma ApprovedPostDraft(created: string, post: string, date: string, password: string, answer: bool)
    requires StampText(date)
    requires !Contains(post, POST_MARKER) && !Contains(post, RULE)
    ensures var content := RenderPostDraft(created, post, PostName(date));
      && ExecuteActionAsWritten(Parse(content), password, answer) == Raised(IMPORT_ERROR)
      && HandlerExecutor(password)(content, answer) == Outcome([LinkedInPublish(Strip(post))], answer)
  {
    var content := RenderPostDraft(created, post, PostName(date));
    PostDraftRoundTrip(created, post, date);
    PostFileExecutes(content, Strip(post), password, answer);
  }

  /** A file parsed as a LinkedIn action publishes its post, whatever else it holds. */
  lemma PostFileExecutes(content: string, post: string, password: string, answer: bool)
    requires Parse(content).kind == LINKEDIN_POST && Parse(content).postContent == post
    ensures ExecuteActionAsWritten(Parse(content), password, answer) == Raised(IMPORT_ERROR)
    ensures HandlerExecutor(password)(content, answer) == Outcome([LinkedInPublish(post)], answer)
  {
  }

  // ---------------------------------------------------------------------------
  // main
  // ---------------------------------------------------------------------------

  /** How a run of the poster ends. */
  datatype PosterOutcome =
    | ActivityFailed(error: string)   // get_recent_activity raised
    | QwenFailed(reply: string)       // the reply holds "[ERROR]"
    | SavedDraft(name: string)        // the draft is in the approval folder

  /** The vault after a run, with how the run ended. */
  datatype PosterRun = PosterRun(tree: Tree, outcome: PosterOutcome)

  /**
   * `main()`: the activity is gathered first (only for the prompt, which is
   * not modelled), then the reply is gated and saved. `listing` is the
   * order `iterdir` gives the entries of `Done`, `cli` the model's call,
   * `date` and `created` the two `datetime.now()` texts, `now` the write time.
   */
  function Poster(t: Tree, listing: seq<Listed>, cli: AgentRunner.CliResult, date: string, created: string, now: int): PosterRun {
    var activity := RecentActivity(listing);
    if activity.Raised? then PosterRun(t, ActivityFailed(activity.error))
    else
      var post := PosterReply(cli);
      if Blocked(post) then PosterRun(t, QwenFailed(post))
      else
        var name := PostName(date);
        PosterRun(Write(t, ApprovalRequired, name, RenderPostDraft(created, post, name), now), SavedDraft(name))
  }

  /** One run of the poster on the vault. */
  method RunPoster(store: Store, listing: seq<Listed>, cli: AgentRunner.CliResult, date: string, created: string, now: int)
    returns (outcome: PosterOutcome)
    modifies store
    ensures PosterRun(store.tree, outcome) == Poster(old(store.tree), listing, cli, date, created, now)
  {
    var activity := GetRecentActivity(listing);
    if activity.Raised? {
      return ActivityFailed(activity.error);
    }
    var post := PosterReply(cli);
    if Blocked(post) {
      return QwenFailed(post);
    }
    var name := PostName(date);
    store.WriteFile(ApprovalRequired, name, RenderPostDraft(created, post, name), now);
    outcome := SavedDraft(name);
  }

  /** A reply holding `[ERROR]`, and so every call that raised, saves nothing. */
  lemma PosterGate(t: Tree, listing: seq<Listed>, cli: AgentRunner.CliResult, date: string, created: string, now: int)
    ensures Blocked(PosterReply(cli)) ==> Poster(t, listing, cli, date, created, now).tree == t
    ensures cli.CallFailed? ==> Poster(t, listing, cli, date, created, now).tree == t
    ensures Poster(t, listing, cli, date, created, now).outcome.SavedDraft? <==>
      RecentActivity(listing).Ok? && !Blocked(PosterReply(cli))
  {
    PosterReplyShape(cli);
  }

  /**
   * A run that gets through the gate adds exactly one file to the approval
   * folder, `LINKEDIN_POST_<date>.md`, holding the draft, and changes no
   * other file and no other folder.
   */
  lemma PosterSavesDraft(t: Tree, listing: seq<Listed>, cli: AgentRunner.CliResult, date: string, created: string, now: int)
    requires RecentActivity(listing).Ok? && !Blocked(PosterReply(cli))
    ensures var p := Poster(t, listing, cli, date, created, now);
      var name := PostName(date);
      && p.outcome == SavedDraft(name)
      && Files(p.tree, ApprovalRequired).Keys == Files(t, ApprovalRequired).Keys + {name}
      && Files(p.tree, ApprovalRequired)[name] == File(RenderPostDraft(created, PosterReply(cli), name), now)
      && (forall n :: n in Files(t, ApprovalRequired) && n != name ==> Files(p.tree, ApprovalRequired)[n] == Files(t, ApprovalRequired)[n])
      && (forall f :: f != ApprovalRequired ==> Files(p.tree, f) == Files(t, f))
  {
  }

  /**
   * End to end: a saved draft, once approved, is read back by the handler as
   * the model's stripped reply; the handler as written raises instead.
   */
  lemma PosterDraftApproved(t: Tree, listing: seq<Listed>, cli: AgentRunner.CliResult, date: string, created: string,
                            now: int, password: string, answer: bool)
    requires RecentActivity(listing).Ok? && !Blocked(PosterReply(cli)) && StampText(date)
    requires !Contains(PosterReply(cli), POST_MARKER) && !Contains(PosterReply(cli), RULE)
    ensures var p := Poster(t, listing, cli, date, created, now);
      && IsFile(p.tree, ApprovalRequired, PostName(date))
      && ExecuteActionAsWritten(Parse(Files(p.tree, ApprovalRequired)[PostName(date)].content), password, answer).Raised?
      && HandlerExecutor(password)(Files(p.tree, ApprovalRequired)[PostName(date)].content, answer)
         == Outcome([LinkedInPublish(PosterReply(cli))], answer)
  {
    var post := PosterReply(cli);
    PosterSavedFile(t, listing, cli, date, created, now);
    PosterReplyShape(cli);
    StripTrimmed(post);
    ApprovedPostDraft(created, post, date, password, answer);
  }

  /**
   * A blank reply gets through the gate as `""`, is saved, and is read back
   * as an empty post: approving it publishes `""`.
   */
  lemma PosterBlankReplyApproved(t: Tree, listing: seq<Listed>, cli: AgentRunner.CliResult, date: string, created: string,
                                 now: int, password: string, answer: bool)
    requires RecentActivity(listing).Ok? && cli.Completed? && Blank(cli.stdout) && StampText(date)
    ensures var p := Poster(t, listing, cli, date, created, now);
      && IsFile(p.tree, ApprovalRequired, PostName(date))
      && HandlerExecutor(password)(Files(p.tree, ApprovalRequired)[PostName(date)].content, answer)
         == Outcome([LinkedInPublish("")], answer)
  {
    PosterReplyShape(cli);
    assert PosterReply(cli) == "";
    assert !Contains("", POST_MARKER) && !Contains("", RULE);
    PosterDraftApproved(t, listing, cli, date, created, now, password, answer);
  }

  /** The file a run that gets through the gate saves, and nothing else about the run. */
  lemma PosterSavedFile(t: Tree, listing: seq<Listed>, cli: AgentRunner.CliResult, date: string, created: string, now: int)
    requires RecentActivity(listing).Ok? && !Blocked(PosterReply(cli))
    ensures var p := Poster(t, listing, cli, date, created, now);
      && IsFile(p.tree, ApprovalRequired, PostName(date))
      && Files(p.tree, ApprovalRequired)[PostName(date)].content == RenderPostDraft(created, PosterReply(cli), PostName(date))
  {
    PosterSavesDraft(t, listing, cli, date, created, now);
  }
}
