/**
 * The agent runner: it takes one item (from `Inbox`, or an action file in
 * `Needs_Action`), asks the language model about it, and either drafts an
 * e-mail for approval (when the item asks for one) or writes the model's
 * reply to `Needs_Action`; then it archives the item to `Done`. The model's reply is the outcome of the command-line call,
 * given as a parameter; the file's timestamp and the clock are parameters too.
 */
module AgentRunner {
  import opened Wrappers
  import opened Text
  import opened Vault
  import opened AddressPattern

  // ---------------------------------------------------------------------------
  // Recognising an e-mail request
  // ---------------------------------------------------------------------------

  /** The phrases that make an inbox item an e-mail request. */
  const EMAIL_KEYWORDS: seq<string> := ["send an email", "email to", "write an email"]

  /** `any(kw in s for kw in keywords)` */
  function AnyIn(s: string, keywords: seq<string>): bool
    decreases |keywords|
  {
    if keywords == [] then false else Contains(s, keywords[0]) || AnyIn(s, keywords[1..])
  }

  /** Some keyword occurs exactly when at least one of them does. */
  lemma {:induction false} AnyInIff(s: string, keywords: seq<string>)
    decreases |keywords|
    ensures AnyIn(s, keywords) <==> exists k :: 0 <= k < |keywords| && Contains(s, keywords[k])
  {
    if keywords != [] {
      AnyInIff(s, keywords[1..]);
      if AnyIn(s, keywords[1..]) {
        var k :| 0 <= k < |keywords[1..]| && Contains(s, keywords[1..][k]);
        assert Contains(s, keywords[k + 1]);
      }
      if exists k :: 0 <= k < |keywords| && Contains(s, keywords[k]) {
        var k :| 0 <= k < |keywords| && Contains(s, keywords[k]);
        if k > 0 {
          assert Contains(s, keywords[1..][k - 1]);
        }
      }
    }
  }

  /** The item is an e-mail request: a keyword occurs in its lower-cased text. */
  predicate IsEmailRequest(content: string) {
    AnyIn(Lower(content), EMAIL_KEYWORDS)
  }

  /** An item is an e-mail request exactly when one of the three phrases occurs in it, in any casing. */
  lemma EmailRequestIff(content: string)
    ensures IsEmailRequest(content) <==>
      exists k :: 0 <= k < |EMAIL_KEYWORDS| && Contains(Lower(content), EMAIL_KEYWORDS[k])
  {
    AnyInIff(Lower(content), EMAIL_KEYWORDS);
  }

  /** "Send An Email", "EMAIL TO" and every other casing of a keyword is recognised. */
  lemma EmailRequestAnyCase(content: string, phrase: string)
    requires Lower(phrase) in EMAIL_KEYWORDS && Contains(content, phrase)
    ensures IsEmailRequest(content)
  {
    LowerContains(content, phrase);
    var k :| 0 <= k < |EMAIL_KEYWORDS| && EMAIL_KEYWORDS[k] == Lower(phrase);
    EmailRequestIff(content);
  }

  /** Whether an item is an e-mail request does not depend on how it is cased. */
  lemma EmailRequestIgnoresCase(content: string)
    ensures IsEmailRequest(Lower(content)) == IsEmailRequest(content)
  {
    LowerIdempotent(content);
  }

  // ---------------------------------------------------------------------------
  // Urgency shown on the dashboard
  // ---------------------------------------------------------------------------

  datatype Urgency = Urgent | Low | Normal

  /** `URGENT` anywhere in the upper-cased reply wins over `LOW`; neither means normal. */
  function Classify(response: string): Urgency {
    var u := Upper(response);
    if Contains(u, "URGENT") then Urgent
    else if Contains(u, "LOW") then Low
    else Normal
  }

  /** The word "urgent" in any casing makes the reply urgent, whatever else it says. */
  lemma UrgentAnyCase(response: string, word: string)
    requires Upper(word) == "URGENT" && Contains(response, word)
    ensures Classify(response) == Urgent
  {
    UpperContains(response, word);
  }

  /** "low" in any casing makes a reply that never says "urgent" low. */
  lemma LowAnyCase(response: string, word: string)
    requires Upper(word) == "LOW" && Contains(response, word)
    requires forall w :: Upper(w) == "URGENT" ==> !Contains(response, w)
    ensures Classify(response) == Low
  {
    UpperContains(response, word);
    if Contains(Upper(response), "URGENT") {
      var i := Find(Upper(response), "URGENT").value;
      var w := response[i..i + 6];
      assert Upper(w) == Upper(response)[i..i + 6];
      assert StartsWith(response[i..], w);
      StartsWithContains(response[i..], w);
      SliceContains(response, i, |response|, w);
    }
  }

  /** The classification does not depend on how the reply is cased. */
  lemma ClassifyIgnoresCase(response: string)
    ensures Classify(Lower(response)) == Classify(response)
  {
    UpperOfLower(response);
  }

  // ---------------------------------------------------------------------------
  // The language-model call
  // ---------------------------------------------------------------------------

  /**
   * How `subprocess.run("qwen chat", ..., timeout=90)` ended: the process
   * completed with a return code and its two output streams, or the call
   * raised (a timeout after 90 seconds, a shell that could not start), with
   * the exception's text.
   */
  datatype CliResult = Completed(returnCode: int, stdout: string, stderr: string) | CallFailed(error: string)

  const ERROR_PREFIX := "[ERROR] "
  const EMPTY_REPLY := "[ERROR] Qwen returned empty. stderr: "

  /** The call succeeded: return code 0 and some output other than whitespace. */
  predicate Answered(r: CliResult) {
    r.Completed? && r.returnCode == 0 && Strip(r.stdout) != ""
  }

  /**
   * The reply the runner works with (the command-line call is the one used,
   * `USE_API` being false): the stripped output, or an error text.
   */
  function CallQwen(r: CliResult): string {
    if Answered(r) then Strip(r.stdout)
    else if r.Completed? then EMPTY_REPLY + r.stderr
    else ERROR_PREFIX + r.error
  }

  /**
   * An answered call gives its output without surrounding whitespace and not
   * empty; every other call gives a text starting with `[ERROR] `, which
   * carries the standard error or the exception's text.
   */
  lemma CallQwenShape(r: CliResult)
    ensures Answered(r) ==> CallQwen(r) != "" && Trimmed(CallQwen(r)) && CallQwen(r) == Strip(r.stdout)
    ensures !Answered(r) ==> StartsWith(CallQwen(r), ERROR_PREFIX) && Contains(CallQwen(r), "[ERROR]")
    ensures !Answered(r) && r.Completed? ==> CallQwen(r)[|EMPTY_REPLY|..] == r.stderr
    ensures r.CallFailed? ==> CallQwen(r)[|ERROR_PREFIX|..] == r.error
  {
    var out := CallQwen(r);
    if !Answered(r) {
      assert StartsWith(out, ERROR_PREFIX);
      StartsWithContains(out, "[ERROR]");
    }
  }

  // ---------------------------------------------------------------------------
  // File names
  // ---------------------------------------------------------------------------

  /** Some character before `d` is not a dot. */
  predicate NonDotBefore(s: string, d: int) {
    exists k :: 0 <= k < d && k < |s| && s[k] != '.'
  }

  /**
   * `os.path.splitext(name)[0]` for a name with no `/`: cut at the last dot,
   * unless every character before it is a dot (`.bashrc`, `..`).
   */
  function Stem(name: string): (r: string)
    ensures StartsWith(name, r)
    ensures r == name || (name[|r|] == '.' && forall j :: |r| < j < |name| ==> name[j] != '.')
  {
    match LastIndex(name, '.', |name|)
    case None => name
    case Some(d) => if NonDotBefore(name, d) then name[..d] else name
  }

  /** A name with an extension loses exactly the extension: `splitext("notes.txt")[0] == "notes"`. */
  lemma StemOfExtension(base: string, ext: string)
    requires '.' !in ext && NonDotBefore(base, |base|)
    ensures Stem(base + "." + ext) == base
  {
    var name := base + "." + ext;
    var k :| 0 <= k < |base| && base[k] != '.';
    assert name[k] != '.';
    assert name[|base|] == '.';
    assert forall j :: |base| < j < |name| ==> name[j] == ext[j - |base| - 1];
    assert LastIndex(name, '.', |name|) == Some(|base|);
    assert name[..|base|] == base;
  }

  /**
   * A name without a dot, or whose dots all lead it, is kept whole:
   * `splitext(".env")[0] == ".env"`.
   */
  lemma StemKeepsName(name: string)
    requires forall k :: 0 <= k < |name| && name[k] == '.' ==> forall j :: 0 <= j < k ==> name[j] == '.'
    ensures Stem(name) == name
  {
  }

  /** `f"{base_name}_response_{timestamp}.md"`, where `Needs_Action` receives the reply. */
  function ResponseName(name: string, ts: string): string {
    Stem(name) + "_response_" + ts + ".md"
  }

  /** The reply to `base.ext` is `base_response_<ts>.md`. */
  lemma ResponseNameOfText(base: string, ext: string, ts: string)
    requires '.' !in ext && NonDotBefore(base, |base|)
    ensures ResponseName(base + "." + ext, ts) == base + "_response_" + ts + ".md"
  {
    StemOfExtension(base, ext);
  }

  const DRAFT_PREFIX := "DRAFT_EMAIL_"
  const MD := ".md"

  /** `f"DRAFT_EMAIL_{timestamp}.md"` */
  function DraftName(ts: string): string {
    DRAFT_PREFIX + ts + MD
  }

  /** The subject every drafted e-mail carries. */
  const DRAFT_SUBJECT := "Ramadan Prompting Night by Asharib Ali"

  // The fixed lines and line beginnings of an e-mail draft.
  const TO_FIELD := "**To:** "
  const SUBJECT_FIELD := "**Subject:** "
  const ACTION_LINE := "**Action:** SEND_EMAIL"
  const BODY_HEADING := "## Draft Body:"
  const RULE_LINE := "---"
  const APPROVE_HINT := "## To Approve: Rename to APPROVED_"
  const REJECT_HINT := "## To Reject: Rename to REJECTED_"

  /**
   * The draft written to `Needs_Action/APPROVAL_REQUIRED` for the approval
   * handler to pick up: the recipient, subject and action lines, a blank
   * line, the body heading with the model's reply under it, a blank line, a
   * rule and the two rename instructions, each line ending in a line break.
   */
  function RenderEmailDraft(to: string, response: string, draft: string): string {
    TO_FIELD + to + "\n" + SUBJECT_FIELD + DRAFT_SUBJECT + "\n" + ACTION_LINE + "\n" + "\n"
    + BODY_HEADING + "\n" + response + "\n" + "\n"
    + RULE_LINE + "\n" + APPROVE_HINT + draft + "\n" + REJECT_HINT + draft + "\n"
  }

  // ---------------------------------------------------------------------------
  // Processing one item
  // ---------------------------------------------------------------------------

  /**
   * The folders `run` is given items from: `Inbox` when it is started by hand
   * on an inbox file, `Needs_Action` when a watcher's `trigger_agent` starts it
   * on the action file it has just written.
   */
  predicate ItemFolder(f: Folder) {
    f == Inbox || f == NeedsAction
  }

  /** The reply file never has the item's own name, so writing it never replaces the item. */
  lemma ResponseNameDiffers(name: string, ts: string)
    ensures ResponseName(name, ts) != name
  {
    var stem := Stem(name);
    var reply := ResponseName(name, ts);
    assert reply[..|stem|] == stem && reply[|stem|] == '_';
    if stem != name {
      assert name[|stem|] == '.';
    }
  }

  /**
   * How `run` ended: it raised because the item is not a readable file, it
   * skipped a blank item, or it wrote a draft or a reply (named here) of the
   * given urgency.
   */
  datatype RunOutcome =
    | Unreadable
    | Skipped
    | DraftedEmail(draft: string, urgency: Urgency)
    | Responded(response: string, urgency: Urgency)

  datatype Processed = Processed(tree: Tree, outcome: RunOutcome)

  /**
   * `run(src/name)` on the vault `t`, the model call ending as `cli`, at
   * timestamp `ts` and time `now`. The reply goes to `Needs_Action` and the
   * item to `Done`, whichever folder it came from.
   */
  function Process(t: Tree, src: Folder, name: string, cli: CliResult, ts: string, now: int): Processed {
    if !IsFile(t, src, name) then Processed(t, Unreadable)
    else
      var content := Files(t, src)[name].content;
      if Strip(content) == "" then Processed(t, Skipped)
      else
        var response := CallQwen(cli);
        if IsEmailRequest(content) then
          var draft := DraftName(ts);
          var t1 := Write(t, ApprovalRequired, draft, RenderEmailDraft(ExtractAddress(content), response, draft), now);
          Processed(Move(t1, src, name, Done, name), DraftedEmail(draft, Classify(response)))
        else
          var reply := ResponseName(name, ts);
          var t1 := Write(t, NeedsAction, reply, response, now);
          Processed(Move(t1, src, name, Done, name), Responded(reply, Classify(response)))
  }

  /** `run`, step by step on the vault. */
  method Run(store: Store, src: Folder, name: string, cli: CliResult, ts: string, now: int) returns (outcome: RunOutcome)
    modifies store
    ensures Processed(store.tree, outcome) == Process(old(store.tree), src, name, cli, ts, now)
  {
    if !IsFile(store.tree, src, name) {
      return Unreadable;
    }
    var content := Files(store.tree, src)[name].content;
    if Strip(content) == "" {
      return Skipped;
    }
    var response := CallQwen(cli);
    if IsEmailRequest(content) {
      var to := ExtractAddress(content);
      var draft := DraftName(ts);
      store.WriteFile(ApprovalRequired, draft, RenderEmailDraft(to, response, draft), now);
      store.MoveFile(src, name, Done, name);
      return DraftedEmail(draft, Classify(response));
    }
    var reply := ResponseName(name, ts);
    ResponseNameDiffers(name, ts);
    store.WriteFile(NeedsAction, reply, response, now);
    store.MoveFile(src, name, Done, name);
    outcome := Responded(reply, Classify(response));
  }

  /**
   * A blank item, and only a blank one, is skipped; a skipped or unreadable
   * item leaves the vault as it was and the model is not consulted.
   */
  lemma RunSkipsBlank(t: Tree, src: Folder, name: string, cli: CliResult, ts: string, now: int)
    ensures IsFile(t, src, name) ==>
      (Process(t, src, name, cli, ts, now).outcome == Skipped <==> Blank(Files(t, src)[name].content))
    ensures Process(t, src, name, cli, ts, now).outcome in {Skipped, Unreadable} ==> Process(t, src, name, cli, ts, now).tree == t
  {
    if IsFile(t, src, name) {
      StripEmptyIffBlank(Files(t, src)[name].content);
    }
  }

  /**
   * An e-mail request becomes a draft in the approval folder addressed to the
   * address found in it and holding the model's reply; no reply file is
   * written, and the item leaves its folder for `Done` under its own name.
   */
  lemma RunDraftsEmail(t: Tree, src: Folder, name: string, cli: CliResult, ts: string, now: int)
    requires ItemFolder(src) && IsFile(t, src, name)
    requires !Blank(Files(t, src)[name].content) && IsEmailRequest(Files(t, src)[name].content)
    ensures var p := Process(t, src, name, cli, ts, now);
      var content := Files(t, src)[name].content;
      var draft := DraftName(ts);
      && p.outcome == DraftedEmail(draft, Classify(CallQwen(cli)))
      && Files(p.tree, ApprovalRequired).Keys == Files(t, ApprovalRequired).Keys + {draft}
      && Files(p.tree, ApprovalRequired)[draft] == File(RenderEmailDraft(ExtractAddress(content), CallQwen(cli), draft), now)
      && (forall n :: n in Files(t, ApprovalRequired) && n != draft ==> Files(p.tree, ApprovalRequired)[n] == Files(t, ApprovalRequired)[n])
      && Files(p.tree, src) == Files(t, src) - {name}
      && (forall g :: ItemFolder(g) && g != src ==> Files(p.tree, g) == Files(t, g))
      && Files(p.tree, Done)[name] == Files(t, src)[name]
  {
    StripEmptyIffBlank(Files(t, src)[name].content);
  }

  /**
   * Any other item gets exactly one new file in `Needs_Action`, holding the
   * model's reply; the approval folder is not written, and the item leaves
   * its folder for `Done` under its own name (so an action file in
   * `Needs_Action` is replaced there by its reply).
   */
  lemma RunWritesResponse(t: Tree, src: Folder, name: string, cli: CliResult, ts: string, now: int)
    requires ItemFolder(src) && IsFile(t, src, name)
    requires !Blank(Files(t, src)[name].content) && !IsEmailRequest(Files(t, src)[name].content)
    ensures var p := Process(t, src, name, cli, ts, now);
      var reply := ResponseName(name, ts);
      && p.outcome == Responded(reply, Classify(CallQwen(cli)))
      && Files(p.tree, NeedsAction).Keys == (Files(t, NeedsAction).Keys + {reply}) - (if src == NeedsAction then {name} else {})
      && Files(p.tree, NeedsAction)[reply] == File(CallQwen(cli), now)
      && Files(p.tree, ApprovalRequired) == Files(t, ApprovalRequired)
      && name !in Files(p.tree, src)
      && (src == Inbox ==> Files(p.tree, Inbox) == Files(t, Inbox) - {name})
      && Files(p.tree, Done)[name] == Files(t, src)[name]
  {
    StripEmptyIffBlank(Files(t, src)[name].content);
    ResponseNameDiffers(name, ts);
  }

  /**
   * No item is lost: after `run` the item is either still where it was
   * (unprocessed) or in `Done` with its content and time, and `Done` keeps
   * every other entry.
   */
  lemma RunKeepsItem(t: Tree, src: Folder, name: string, cli: CliResult, ts: string, now: int)
    requires ItemFolder(src) && name in Files(t, src)
    ensures var p := Process(t, src, name, cli, ts, now);
      (p.outcome in {Skipped, Unreadable} && Files(p.tree, src) == Files(t, src))
      || (name !in Files(p.tree, src) && Files(p.tree, Done)[name] == Files(t, src)[name]
          && forall n :: n in Files(t, Done) && n != name ==> n in Files(p.tree, Done) && Files(p.tree, Done)[n] == Files(t, Done)[n])
  {
    if IsFile(t, src, name) && Strip(Files(t, src)[name].content) != "" {
      var content := Files(t, src)[name].content;
      ResponseNameDiffers(name, ts);
      var t1 := if IsEmailRequest(content)
        then Write(t, ApprovalRequired, DraftName(ts), RenderEmailDraft(ExtractAddress(content), CallQwen(cli), DraftName(ts)), now)
        else Write(t, NeedsAction, ResponseName(name, ts), CallQwen(cli), now);
      assert name in Files(t1, src) && Files(t1, src)[name] == Files(t, src)[name] && Files(t1, Done) == Files(t, Done);
      assert Process(t, src, name, cli, ts, now).tree == Move(t1, src, name, Done, name);
    }
  }
}
