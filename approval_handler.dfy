/**
 * The approval gate: a person renames a draft in `Needs_Action/APPROVAL_REQUIRED`
 * to `APPROVED_...` or `REJECTED_...`; a scan of that folder parses approved
 * drafts into actions, executes them and archives every decided file into
 * `Done` under a provenance-prefixed name. The e-mail and LinkedIn executors
 * are oracles: the model records which one is called with what, and takes
 * their answer as a parameter.
 */
module ApprovalHandler {
  import opened Wrappers
  import opened Text
  import opened Vault

  const TO_MARKER := "**To:**"
  const SUBJECT_MARKER := "**Subject:**"
  const ACTION_MARKER := "**Action:**"
  const EMAIL_MARKER := "## Draft Email for Approval:"
  const BODY_MARKER := "## Draft Body:"
  const POST_MARKER := "## Post Content:"
  const RULE := "---"

  const SEND_EMAIL := "SEND_EMAIL"
  const LINKEDIN_POST := "LINKEDIN_POST"
  const UNKNOWN := "unknown"

  const APPROVED := "APPROVED_"
  const REJECTED := "REJECTED_"
  const EXECUTED_TAG := "EXECUTED"
  const FAILED_TAG := "FAILED"
  const REJECTED_TAG := "REJECTED"

  /** The action record `parse_action_file` returns. */
  datatype Action = Action(kind: string, to: string, subject: string, body: string, postContent: string, raw: string)

  // ---------------------------------------------------------------------------
  // parse_action_file
  // ---------------------------------------------------------------------------

  /** The value of a field line: the marker removed everywhere, then stripped. */
  function FieldValue(line: string, marker: string): string
    requires marker != []
  {
    Strip(ReplaceAll(line, marker, ""))
  }

  /** The three field markers differ at their third character, so a line starts with at most one. */
  lemma MarkersExclusive(line: string)
    ensures StartsWith(line, TO_MARKER) ==> !StartsWith(line, SUBJECT_MARKER) && !StartsWith(line, ACTION_MARKER)
    ensures StartsWith(line, SUBJECT_MARKER) ==> !StartsWith(line, ACTION_MARKER)
  {
    assert TO_MARKER[2] == 'T' && SUBJECT_MARKER[2] == 'S' && ACTION_MARKER[2] == 'A';
    if StartsWith(line, TO_MARKER) { assert line[2] == 'T'; }
    if StartsWith(line, SUBJECT_MARKER) { assert line[2] == 'S'; }
  }

  /** Line `i` is the last of `lines` that starts with `marker`. */
  predicate IsLastFieldLine(lines: seq<string>, marker: string, i: int) {
    0 <= i < |lines| && StartsWith(lines[i], marker)
    && forall j :: i < j < |lines| ==> !StartsWith(lines[j], marker)
  }

  /**
   * What the field loop leaves in a field after `lines`: the value of the
   * last line starting with `marker`, or the default when none does.
   */
  function LastField(lines: seq<string>, marker: string, default: string): string
    requires marker != []
    decreases |lines|
  {
    if lines == [] then default
    else if StartsWith(lines[|lines| - 1], marker) then FieldValue(lines[|lines| - 1], marker)
    else LastField(lines[..|lines| - 1], marker, default)
  }

  /** A field no line sets keeps its default. */
  lemma {:induction false} LastFieldDefault(lines: seq<string>, marker: string, default: string)
    requires marker != []
    requires forall i :: 0 <= i < |lines| ==> !StartsWith(lines[i], marker)
    decreases |lines|
    ensures LastField(lines, marker, default) == default
  {
    if lines != [] {
      var front := lines[..|lines| - 1];
      assert forall i :: 0 <= i < |front| ==> front[i] == lines[i];
      LastFieldDefault(front, marker, default);
    }
  }

  /** Field values are last-wins: the value comes from the last line with the marker. */
  lemma {:induction false} LastFieldIsLast(lines: seq<string>, marker: string, default: string, i: int)
    requires marker != [] && IsLastFieldLine(lines, marker, i)
    decreases |lines|
    ensures LastField(lines, marker, default) == FieldValue(lines[i], marker)
  {
    if i < |lines| - 1 {
      var front := lines[..|lines| - 1];
      assert front[i] == lines[i];
      assert forall j :: i < j < |front| ==> front[j] == lines[j];
      assert IsLastFieldLine(front, marker, i);
      LastFieldIsLast(front, marker, default, i);
    }
  }

  /** One more line updates the field only when it starts with the marker. */
  lemma LastFieldStep(lines: seq<string>, line: string, marker: string, default: string)
    requires marker != []
    ensures LastField(lines + [line], marker, default) ==
              if StartsWith(line, marker) then FieldValue(line, marker) else LastField(lines, marker, default)
  {
    assert (lines + [line])[..|lines|] == lines;
  }

  /** Text after the last `marker`, stripped, cut at the first `---`, stripped again. */
  function Extract(content: string, marker: string): string
    requires marker != []
  {
    Strip(FirstPiece(Strip(LastPiece(content, marker)), RULE))
  }

  /** An extracted section is trimmed, holds no `---`, and comes from after the last marker. */
  lemma ExtractShape(content: string, marker: string)
    requires marker != []
    ensures Trimmed(Extract(content, marker))
    ensures !Contains(Extract(content, marker), RULE)
    ensures !Contains(LastPiece(content, marker), marker)
    ensures Contains(LastPiece(content, marker), Extract(content, marker))
  {
    var tail := LastPiece(content, marker);
    LastPieceShape(content, marker);
    var st := Strip(tail);
    var cut := FirstPiece(st, RULE);
    FirstPieceIsFirst(st, RULE);
    StripContains(cut, RULE);
    StripContains(tail, RULE);
    assert cut == st[0..|cut|];
    SliceContains(st, 0, |cut|, RULE);
    ContainsTrans(tail, st, cut);
    ContainsTrans(tail, cut, Strip(cut));
  }

  /**
   * A section written as the marker, a line break, a body, two line breaks
   * and a line starting with `---` is extracted as exactly the stripped body,
   * whatever precedes the marker.
   */
  lemma ExtractSection(top: string, marker: string, body: string, w: string)
    requires marker != [] && Lacks(marker, '\n') && Unbordered(marker)
    requires !Contains(body, marker) && !Contains(w, marker)
    requires !Contains(body, RULE)
    requires StartsWith(w, RULE)
    ensures Extract(top + marker + "\n" + body + "\n\n" + w, marker) == Strip(body)
  {
    LacksNotIn(marker, '\n');
    SectionPiece(top, marker, body, w);
    CutSection(body, w, RULE);
  }

  /** The action a draft describes: what `parse_action_file` computes. */
  function Parse(content: string): (a: Action)
    ensures a.raw == content
  {
    var lines := Split(content, '\n');
    var to := LastField(lines, TO_MARKER, "");
    var subject := LastField(lines, SUBJECT_MARKER, "");
    var declared := LastField(lines, ACTION_MARKER, UNKNOWN);
    var body := if Contains(content, EMAIL_MARKER) then Extract(content, EMAIL_MARKER)
                else if Contains(content, BODY_MARKER) then Extract(content, BODY_MARKER)
                else "";
    var afterBody := if Contains(content, EMAIL_MARKER) || Contains(content, BODY_MARKER) then SEND_EMAIL else declared;
    var post := if Contains(content, POST_MARKER) then Extract(content, POST_MARKER) else "";
    var kind := if Contains(content, POST_MARKER) then LINKEDIN_POST else afterBody;
    Action(kind, to, subject, body, post, content)
  }

  /** `parse_action_file`: the field loop over the lines, then the section markers. */
  method ParseActionFile(content: string) returns (a: Action)
    ensures a == Parse(content)
  {
    var lines := Split(content, '\n');
    var kind, to, subject := UNKNOWN, "", "";
    var i := 0;
    while i < |lines|
      invariant 0 <= i <= |lines|
      invariant to == LastField(lines[..i], TO_MARKER, "")
      invariant subject == LastField(lines[..i], SUBJECT_MARKER, "")
      invariant kind == LastField(lines[..i], ACTION_MARKER, UNKNOWN)
    {
      var line := lines[i];
      MarkersExclusive(line);
      assert lines[..i + 1] == lines[..i] + [line];
      LastFieldStep(lines[..i], line, TO_MARKER, "");
      LastFieldStep(lines[..i], line, SUBJECT_MARKER, "");
      LastFieldStep(lines[..i], line, ACTION_MARKER, UNKNOWN);
      if StartsWith(line, TO_MARKER) {
        to := FieldValue(line, TO_MARKER);
      } else if StartsWith(line, SUBJECT_MARKER) {
        subject := FieldValue(line, SUBJECT_MARKER);
      } else if StartsWith(line, ACTION_MARKER) {
        kind := FieldValue(line, ACTION_MARKER);
      }
      i := i + 1;
    }
    assert lines[..|lines|] == lines;
    var body := "";
    if Contains(content, EMAIL_MARKER) {
      body := Extract(content, EMAIL_MARKER);
      kind := SEND_EMAIL;
    } else if Contains(content, BODY_MARKER) {
      body := Extract(content, BODY_MARKER);
      kind := SEND_EMAIL;
    }
    var post := "";
    if Contains(content, POST_MARKER) {
      post := Extract(content, POST_MARKER);
      kind := LINKEDIN_POST;
    }
    a := Action(kind, to, subject, body, post, content);
  }

  /** No line of `content` starts with `marker`. */
  predicate NoFieldLine(content: string, marker: string) {
    forall i :: 0 <= i < |Split(content, '\n')| ==> !StartsWith(Split(content, '\n')[i], marker)
  }

  /** A draft without field lines and without section markers parses to the defaults. */
  lemma ParseDefaults(content: string)
    requires NoFieldLine(content, TO_MARKER) && NoFieldLine(content, SUBJECT_MARKER) && NoFieldLine(content, ACTION_MARKER)
    requires !Contains(content, EMAIL_MARKER) && !Contains(content, BODY_MARKER) && !Contains(content, POST_MARKER)
    ensures Parse(content) == Action(UNKNOWN, "", "", "", "", content)
  {
    var lines := Split(content, '\n');
    LastFieldDefault(lines, TO_MARKER, "");
    LastFieldDefault(lines, SUBJECT_MARKER, "");
    LastFieldDefault(lines, ACTION_MARKER, UNKNOWN);
  }

  /** Field lines are last-wins: `to` comes from the last `**To:**` line. */
  lemma ParseToLastWins(content: string, i: nat)
    requires IsLastFieldLine(Split(content, '\n'), TO_MARKER, i)
    ensures Parse(content).to == FieldValue(Split(content, '\n')[i], TO_MARKER)
  {
    LastFieldIsLast(Split(content, '\n'), TO_MARKER, "", i);
  }

  /** Field lines are last-wins: `subject` comes from the last `**Subject:**` line. */
  lemma ParseSubjectLastWins(content: string, i: nat)
    requires IsLastFieldLine(Split(content, '\n'), SUBJECT_MARKER, i)
    ensures Parse(content).subject == FieldValue(Split(content, '\n')[i], SUBJECT_MARKER)
  {
    LastFieldIsLast(Split(content, '\n'), SUBJECT_MARKER, "", i);
  }

  /** Without section markers, the type comes from the last `**Action:**` line. */
  lemma ParseKindLastWins(content: string, i: nat)
    requires IsLastFieldLine(Split(content, '\n'), ACTION_MARKER, i)
    requires !Contains(content, EMAIL_MARKER) && !Contains(content, BODY_MARKER) && !Contains(content, POST_MARKER)
    ensures Parse(content).kind == FieldValue(Split(content, '\n')[i], ACTION_MARKER)
  {
    LastFieldIsLast(Split(content, '\n'), ACTION_MARKER, UNKNOWN, i);
  }

  /**
   * The body comes from `## Draft Email for Approval:` when that marker occurs,
   * from `## Draft Body:` otherwise; either makes the type `SEND_EMAIL` unless
   * a post section overrides it.
   */
  lemma ParseBody(content: string)
    ensures Contains(content, EMAIL_MARKER) ==> Parse(content).body == Extract(content, EMAIL_MARKER)
    ensures !Contains(content, EMAIL_MARKER) && Contains(content, BODY_MARKER) ==>
              Parse(content).body == Extract(content, BODY_MARKER)
    ensures !Contains(content, EMAIL_MARKER) && !Contains(content, BODY_MARKER) ==> Parse(content).body == ""
    ensures (Contains(content, EMAIL_MARKER) || Contains(content, BODY_MARKER)) && !Contains(content, POST_MARKER) ==>
              Parse(content).kind == SEND_EMAIL
  {
  }

  /**
   * A post section anywhere makes the type `LINKEDIN_POST`, overriding
   * `SEND_EMAIL`; without one, `post_content` stays empty and the type is
   * `LINKEDIN_POST` only when the last `**Action:**` line says so and no
   * e-mail section occurs.
   */
  lemma ParsePost(content: string)
    ensures Contains(content, POST_MARKER) ==>
              Parse(content).kind == LINKEDIN_POST && Parse(content).postContent == Extract(content, POST_MARKER)
    ensures !Contains(content, POST_MARKER) ==> Parse(content).postContent == ""
    ensures !Contains(content, POST_MARKER) && Parse(content).kind == LINKEDIN_POST ==>
              !Contains(content, EMAIL_MARKER) && !Contains(content, BODY_MARKER)
              && LastField(Split(content, '\n'), ACTION_MARKER, UNKNOWN) == LINKEDIN_POST
  {
    assert SEND_EMAIL != LINKEDIN_POST by { assert SEND_EMAIL[0] != LINKEDIN_POST[0]; }
  }

  // ---------------------------------------------------------------------------
  // send_email and execute_action
  // ---------------------------------------------------------------------------

  /** A request to an external executor. */
  datatype Call = SmtpSend(to: string, subject: string, body: string) | LinkedInPublish(content: string)

  /** The executor requests one action led to, and whether it reported success. */
  datatype Outcome = Outcome(calls: seq<Call>, success: bool)

  /**
   * `send_email`: with no SMTP password it fails without contacting a server;
   * otherwise it opens one SMTP session, whose result is `delivered`.
   */
  function SendEmail(password: string, to: string, subject: string, body: string, delivered: bool): (o: Outcome)
    ensures password == "" ==> o.calls == [] && !o.success
    ensures password != "" ==> o.calls == [SmtpSend(to, subject, body)] && o.success == delivered
  {
    if password == "" then Outcome([], false)
    else Outcome([SmtpSend(to, subject, body)], delivered)
  }

  /**
   * `execute_action`, with the LinkedIn executor as the oracle the approval
   * handler evidently means to call (see `ExecuteActionAsWritten` for the
   * import it actually performs).
   */
  function ExecuteAction(a: Action, password: string, answer: bool): (o: Outcome)
    ensures o.success ==> |o.calls| == 1
    ensures forall c :: c in o.calls && c.SmtpSend? ==> a.kind == SEND_EMAIL && c == SmtpSend(a.to, a.subject, a.body)
    ensures forall c :: c in o.calls && c.LinkedInPublish? ==> a.kind == LINKEDIN_POST && c == LinkedInPublish(a.postContent)
    ensures a.kind != SEND_EMAIL && a.kind != LINKEDIN_POST ==> o == Outcome([], false)
  {
    if a.kind == SEND_EMAIL then SendEmail(password, a.to, a.subject, a.body, answer)
    else if a.kind == LINKEDIN_POST then Outcome([LinkedInPublish(a.postContent)], answer)
    else Outcome([], false)
  }

  /**
   * The message Python gives for the `from linkedin_poster import post_via_playwright`
   * statement, without the ` (<path>/linkedin_poster.py)` suffix that names the module's file.
   */
  const IMPORT_ERROR := "cannot import name 'post_via_playwright' from 'linkedin_poster'"

  /**
   * `execute_action` as written: the LinkedIn branch imports a name that
   * `linkedin_poster.py` does not define, so it raises `ImportError` before
   * any executor is reached.
   */
  function ExecuteActionAsWritten(a: Action, password: string, answer: bool): (r: Result<Outcome>)
  {
    if a.kind == SEND_EMAIL then Ok(SendEmail(password, a.to, a.subject, a.body, answer))
    else if a.kind == LINKEDIN_POST then Raised(IMPORT_ERROR)
    else Ok(Outcome([], false))
  }

  /**
   * Every approved draft with a post section raises in the as-written
   * executor: nothing is posted and, since the exception leaves the scan,
   * the file is not archived.
   */
  lemma ApprovedPostRaisesAsWritten(content: string, password: string, answer: bool)
    requires Contains(content, POST_MARKER)
    ensures ExecuteActionAsWritten(Parse(content), password, answer).Raised?
    ensures ExecuteAction(Parse(content), password, answer).calls == [LinkedInPublish(Extract(content, POST_MARKER))]
  {
    ParsePost(content);
  }

  /** The two executors agree on everything but LinkedIn posts. */
  lemma AsWrittenAgreesElsewhere(a: Action, password: string, answer: bool)
    requires a.kind != LINKEDIN_POST
    ensures ExecuteActionAsWritten(a, password, answer) == Ok(ExecuteAction(a, password, answer))
  {
  }

  // ---------------------------------------------------------------------------
  // archive_file
  // ---------------------------------------------------------------------------

  /** The name an archived decision gets in `Done`. */
  function ArchiveName(tag: string, stamp: string, name: string): string {
    tag + "_" + stamp + "_" + name
  }

  predicate IsTag(tag: string) {
    tag == EXECUTED_TAG || tag == FAILED_TAG || tag == REJECTED_TAG
  }

  /** The archived name starts with the tag and keeps the original name as its suffix. */
  lemma ArchiveNameShape(tag: string, stamp: string, name: string)
    ensures StartsWith(ArchiveName(tag, stamp, name), tag + "_")
    ensures ArchiveName(tag, stamp, name)[|tag| + |stamp| + 2..] == name
  {
  }

  /**
   * With time stamps of one fixed width, archive names of different files
   * never collide, whatever their tags.
   */
  lemma ArchiveNamesDistinct(t1: string, s1: string, n1: string, t2: string, s2: string, n2: string)
    requires IsTag(t1) && IsTag(t2) && |s1| == |s2| && n1 != n2
    ensures ArchiveName(t1, s1, n1) != ArchiveName(t2, s2, n2)
  {
    var a1, a2 := ArchiveName(t1, s1, n1), ArchiveName(t2, s2, n2);
    assert a1[0] == t1[0] && a2[0] == t2[0];
    assert EXECUTED_TAG[0] == 'E' && FAILED_TAG[0] == 'F' && REJECTED_TAG[0] == 'R';
    if t1 == t2 && |n1| == |n2| {
      ArchiveNameShape(t1, s1, n1);
      ArchiveNameShape(t2, s2, n2);
    }
    assert |a1| == |t1| + |s1| + |n1| + 2 && |a2| == |t2| + |s2| + |n2| + 2;
    assert EXECUTED_TAG != REJECTED_TAG ==> EXECUTED_TAG[1] != REJECTED_TAG[1];
  }

  // ---------------------------------------------------------------------------
  // scan_for_decisions
  // ---------------------------------------------------------------------------

  /**
   * What executing an approved draft leads to, given the draft's text and the
   * executor's answer, for an executor that always answers. The lemmas about
   * this scan hold for every such function; with `HandlerExecutor(password)`
   * it is the scan with the corrected executor, and it is what the scan as
   * written (`ScanAsWritten` below) does until its first exception.
   */
  type Executor = (string, bool) -> Outcome

  /** The handler's executor: parse the draft, then execute the action with the configured SMTP password. */
  function HandlerExecutor(password: string): Executor {
    (content: string, answer: bool) => ExecuteAction(Parse(content), password, answer)
  }

  /** The vault and the executor requests after part of a scan. */
  datatype Scanned = Scanned(tree: Tree, calls: seq<Call>)

  /** The tag an approved file is archived under. */
  function ResultTag(o: Outcome): string {
    if o.success then EXECUTED_TAG else FAILED_TAG
  }

  /** One iteration of the scan, for the listed entry `name`. */
  function ScanEntry(t: Tree, name: string, stamp: string, execute: Executor, answer: bool): Scanned {
    if !IsFile(t, ApprovalRequired, name) then Scanned(t, [])
    else if StartsWith(name, APPROVED) then
      var o := execute(Files(t, ApprovalRequired)[name].content, answer);
      Scanned(Move(t, ApprovalRequired, name, Done, ArchiveName(ResultTag(o), stamp, name)), o.calls)
    else if StartsWith(name, REJECTED) then
      Scanned(Move(t, ApprovalRequired, name, Done, ArchiveName(REJECTED_TAG, stamp, name)), [])
    else Scanned(t, [])
  }

  /** The state after the scan has handled the first `i` listed entries. */
  function ScanUpTo(t: Tree, names: seq<string>, stamps: seq<string>, execute: Executor, answers: seq<bool>, i: nat): Scanned
    requires i <= |names| && |stamps| == |names| && |answers| == |names|
  {
    if i == 0 then Scanned(t, [])
    else
      var prev := ScanUpTo(t, names, stamps, execute, answers, i - 1);
      var step := ScanEntry(prev.tree, names[i - 1], stamps[i - 1], execute, answers[i - 1]);
      Scanned(step.tree, prev.calls + step.calls)
  }

  /** `names` lists the approval folder of `t`: each entry once. */
  ghost predicate IsListing(names: seq<string>, t: Tree) {
    (forall i, j :: 0 <= i < j < |names| ==> names[i] != names[j])
    && (forall n :: n in Files(t, ApprovalRequired) <==> n in names)
  }

  /** Two positions of a listing name two different entries. */
  lemma ListedOnce(names: seq<string>, t: Tree, a: nat, b: nat)
    requires IsListing(names, t) && a < |names| && b < |names| && a != b
    ensures names[a] != names[b]
  {
    if a > b {
      ListedOnce(names, t, b, a);
    }
  }

  /** Every stamp has the same width, as `%Y%m%d_%H%M%S` renders them. */
  predicate SameWidth(stamps: seq<string>) {
    forall i, j :: 0 <= i < |stamps| && 0 <= j < |stamps| ==> |stamps[i]| == |stamps[j]|
  }

  /** `n` is one of the names the entry `name` may be archived under. */
  predicate IsArchiveOf(n: string, stamp: string, name: string) {
    n == ArchiveName(EXECUTED_TAG, stamp, name) || n == ArchiveName(FAILED_TAG, stamp, name)
    || n == ArchiveName(REJECTED_TAG, stamp, name)
  }

  /** One iteration touches only its own entry and that entry's archive name. */
  lemma ScanEntryFrame(t: Tree, name: string, stamp: string, execute: Executor, answer: bool)
    ensures var t' := ScanEntry(t, name, stamp, execute, answer).tree;
      (forall n :: n != name ==> (n in Files(t', ApprovalRequired) <==> n in Files(t, ApprovalRequired)))
      && (forall n :: n != name && n in Files(t, ApprovalRequired) ==> Files(t', ApprovalRequired)[n] == Files(t, ApprovalRequired)[n])
      && (name !in Files(t, ApprovalRequired) ==> name !in Files(t', ApprovalRequired))
      && (forall n :: n in Files(t, Done) && !IsArchiveOf(n, stamp, name) ==> n in Files(t', Done) && Files(t', Done)[n] == Files(t, Done)[n])
      && (forall n :: n in Files(t', Done) ==> n in Files(t, Done) || IsArchiveOf(n, stamp, name))
      && (forall g :: g != ApprovalRequired && g != Done ==> Files(t', g) == Files(t, g))
  {
  }

  /** A listed entry is untouched by the iterations before its own. */
  lemma {:induction false} EntryBeforeTurn(t: Tree, names: seq<string>, stamps: seq<string>, execute: Executor, answers: seq<bool>, k: nat, i: nat)
    requires IsListing(names, t) && |stamps| == |names| && |answers| == |names|
    requires i <= k < |names|
    ensures var ti := ScanUpTo(t, names, stamps, execute, answers, i).tree;
      names[k] in Files(ti, ApprovalRequired) && Files(ti, ApprovalRequired)[names[k]] == Files(t, ApprovalRequired)[names[k]]
  {
    if i > 0 {
      EntryBeforeTurn(t, names, stamps, execute, answers, k, i - 1);
      var prev := ScanUpTo(t, names, stamps, execute, answers, i - 1);
      ScanEntryFrame(prev.tree, names[i - 1], stamps[i - 1], execute, answers[i - 1]);
    }
  }

  /** The iterations after entry `k` leave its archived copy and its absence from the approval folder alone. */
  lemma {:induction false} ArchiveSurvives(t: Tree, names: seq<string>, stamps: seq<string>, execute: Executor, answers: seq<bool>, k: nat, i: nat, an: string, e: Entry)
    requires IsListing(names, t) && SameWidth(stamps) && |stamps| == |names| && |answers| == |names|
    requires k < i <= |names|
    requires exists tag :: IsTag(tag) && an == ArchiveName(tag, stamps[k], names[k])
    requires var tk := ScanUpTo(t, names, stamps, execute, answers, k + 1).tree;
      names[k] !in Files(tk, ApprovalRequired) && an in Files(tk, Done) && Files(tk, Done)[an] == e
    ensures var ti := ScanUpTo(t, names, stamps, execute, answers, i).tree;
      names[k] !in Files(ti, ApprovalRequired) && an in Files(ti, Done) && Files(ti, Done)[an] == e
    decreases i
  {
    if i > k + 1 {
      ArchiveSurvives(t, names, stamps, execute, answers, k, i - 1, an, e);
      var prev := ScanUpTo(t, names, stamps, execute, answers, i - 1);
      ScanEntryFrame(prev.tree, names[i - 1], stamps[i - 1], execute, answers[i - 1]);
      var tag :| IsTag(tag) && an == ArchiveName(tag, stamps[k], names[k]);
      assert names[k] != names[i - 1];
      ArchiveNamesDistinct(tag, stamps[k], names[k], EXECUTED_TAG, stamps[i - 1], names[i - 1]);
      ArchiveNamesDistinct(tag, stamps[k], names[k], FAILED_TAG, stamps[i - 1], names[i - 1]);
      ArchiveNamesDistinct(tag, stamps[k], names[k], REJECTED_TAG, stamps[i - 1], names[i - 1]);
    }
  }

  /** The iterations after entry `k` leave it in place when its own iteration did. */
  lemma {:induction false} EntryStays(t: Tree, names: seq<string>, stamps: seq<string>, execute: Executor, answers: seq<bool>, k: nat, i: nat)
    requires IsListing(names, t) && |stamps| == |names| && |answers| == |names|
    requires k < i <= |names|
    requires var tk := ScanUpTo(t, names, stamps, execute, answers, k + 1).tree;
      names[k] in Files(tk, ApprovalRequired) && Files(tk, ApprovalRequired)[names[k]] == Files(t, ApprovalRequired)[names[k]]
    ensures var ti := ScanUpTo(t, names, stamps, execute, answers, i).tree;
      names[k] in Files(ti, ApprovalRequired) && Files(ti, ApprovalRequired)[names[k]] == Files(t, ApprovalRequired)[names[k]]
    decreases i
  {
    if i > k + 1 {
      EntryStays(t, names, stamps, execute, answers, k, i - 1);
      var prev := ScanUpTo(t, names, stamps, execute, answers, i - 1);
      ScanEntryFrame(prev.tree, names[i - 1], stamps[i - 1], execute, answers[i - 1]);
    }
  }

  /**
   * What the first `i` iterations of a scan do with each entry among them:
   * an approved file ends in `Done` tagged `EXECUTED` or `FAILED` by its
   * executor's answer (unknown types fail), a rejected file ends tagged
   * `REJECTED`, and all other entries stay where they are.
   */
  lemma {:induction false} ScanOutcome(t: Tree, names: seq<string>, stamps: seq<string>, execute: Executor, answers: seq<bool>, k: nat, i: nat)
    requires IsListing(names, t) && SameWidth(stamps) && |stamps| == |names| && |answers| == |names|
    requires k < i <= |names|
    ensures var final := ScanUpTo(t, names, stamps, execute, answers, i).tree;
      var e := Files(t, ApprovalRequired)[names[k]];
      if e.File? && StartsWith(names[k], APPROVED) then
        var o := execute(e.content, answers[k]);
        var an := ArchiveName(ResultTag(o), stamps[k], names[k]);
        names[k] !in Files(final, ApprovalRequired) && an in Files(final, Done) && Files(final, Done)[an] == e
      else if e.File? && StartsWith(names[k], REJECTED) then
        var an := ArchiveName(REJECTED_TAG, stamps[k], names[k]);
        names[k] !in Files(final, ApprovalRequired) && an in Files(final, Done) && Files(final, Done)[an] == e
      else
        names[k] in Files(final, ApprovalRequired) && Files(final, ApprovalRequired)[names[k]] == e
  {
    EntryBeforeTurn(t, names, stamps, execute, answers, k, k);
    var tk := ScanUpTo(t, names, stamps, execute, answers, k).tree;
    var e := Files(t, ApprovalRequired)[names[k]];
    if e.File? && StartsWith(names[k], APPROVED) {
      var o := execute(e.content, answers[k]);
      var an := ArchiveName(ResultTag(o), stamps[k], names[k]);
      assert IsTag(ResultTag(o));
      ArchiveSurvives(t, names, stamps, execute, answers, k, i, an, e);
    } else if e.File? && StartsWith(names[k], REJECTED) {
      var an := ArchiveName(REJECTED_TAG, stamps[k], names[k]);
      assert IsTag(REJECTED_TAG);
      ArchiveSurvives(t, names, stamps, execute, answers, k, i, an, e);
    } else {
      EntryStays(t, names, stamps, execute, answers, k, i);
    }
  }

  /** The executor requests the entry `name` of the untouched approval folder leads to. */
  function EntryCalls(t: Tree, name: string, execute: Executor, answer: bool): seq<Call> {
    if IsFile(t, ApprovalRequired, name) && StartsWith(name, APPROVED) then
      execute(Files(t, ApprovalRequired)[name].content, answer).calls
    else []
  }

  function ConcatCalls(t: Tree, names: seq<string>, execute: Executor, answers: seq<bool>, i: nat): seq<Call>
    requires i <= |names| && |answers| == |names|
  {
    if i == 0 then [] else ConcatCalls(t, names, execute, answers, i - 1) + EntryCalls(t, names[i - 1], execute, answers[i - 1])
  }

  /**
   * The requests a scan makes are exactly those of the approved files, in
   * listing order; rejected files and other entries make none.
   */
  lemma {:induction false} ScanCalls(t: Tree, names: seq<string>, stamps: seq<string>, execute: Executor, answers: seq<bool>, i: nat)
    requires IsListing(names, t) && |stamps| == |names| && |answers| == |names|
    requires i <= |names|
    ensures ScanUpTo(t, names, stamps, execute, answers, i).calls == ConcatCalls(t, names, execute, answers, i)
  {
    if i > 0 {
      ScanCalls(t, names, stamps, execute, answers, i - 1);
      EntryBeforeTurn(t, names, stamps, execute, answers, i - 1, i - 1);
      var prev := ScanUpTo(t, names, stamps, execute, answers, i - 1);
      var step := ScanEntry(prev.tree, names[i - 1], stamps[i - 1], execute, answers[i - 1]);
      EntryCallsAt(t, prev.tree, names[i - 1], stamps[i - 1], execute, answers[i - 1]);
      assert ScanUpTo(t, names, stamps, execute, answers, i).calls == prev.calls + step.calls;
    }
  }

  /** An entry still as it was in `t` leads to the requests `EntryCalls` gives for it. */
  lemma EntryCallsAt(t: Tree, t': Tree, name: string, stamp: string, execute: Executor, answer: bool)
    requires name in Files(t, ApprovalRequired) && name in Files(t', ApprovalRequired)
    requires Files(t', ApprovalRequired)[name] == Files(t, ApprovalRequired)[name]
    ensures ScanEntry(t', name, stamp, execute, answer).calls == EntryCalls(t, name, execute, answer)
  {
  }

  /** No decided file is waiting in the approval folder. */
  ghost predicate NoDecisionPending(t: Tree) {
    forall n :: IsFile(t, ApprovalRequired, n) ==> !StartsWith(n, APPROVED) && !StartsWith(n, REJECTED)
  }

  /** Entries a scan has not moved stay as they were; nothing new appears in the approval folder. */
  lemma {:induction false} ScanShrinksApproval(t: Tree, names: seq<string>, stamps: seq<string>, execute: Executor, answers: seq<bool>, i: nat)
    requires |stamps| == |names| && |answers| == |names| && i <= |names|
    ensures var ti := ScanUpTo(t, names, stamps, execute, answers, i).tree;
      forall n :: n in Files(ti, ApprovalRequired) ==> n in Files(t, ApprovalRequired) && Files(ti, ApprovalRequired)[n] == Files(t, ApprovalRequired)[n]
  {
    if i > 0 {
      ScanShrinksApproval(t, names, stamps, execute, answers, i - 1);
      var prev := ScanUpTo(t, names, stamps, execute, answers, i - 1);
      ScanEntryFrame(prev.tree, names[i - 1], stamps[i - 1], execute, answers[i - 1]);
    }
  }

  /** After a full scan no approved or rejected file is left. */
  lemma {:induction false} ScanClears(t: Tree, names: seq<string>, stamps: seq<string>, execute: Executor, answers: seq<bool>)
    requires IsListing(names, t) && SameWidth(stamps) && |stamps| == |names| && |answers| == |names|
    ensures NoDecisionPending(ScanUpTo(t, names, stamps, execute, answers, |names|).tree)
  {
    var final := ScanUpTo(t, names, stamps, execute, answers, |names|).tree;
    ScanShrinksApproval(t, names, stamps, execute, answers, |names|);
    forall n | IsFile(final, ApprovalRequired, n)
      ensures !StartsWith(n, APPROVED) && !StartsWith(n, REJECTED)
    {
      var k :| 0 <= k < |names| && names[k] == n;
      ScanOutcome(t, names, stamps, execute, answers, k, |names|);
    }
  }

  /** A scan of a folder with nothing decided changes nothing and calls no executor. */
  lemma {:induction false} ScanIdle(t: Tree, names: seq<string>, stamps: seq<string>, execute: Executor, answers: seq<bool>, i: nat)
    requires NoDecisionPending(t) && |stamps| == |names| && |answers| == |names| && i <= |names|
    ensures ScanUpTo(t, names, stamps, execute, answers, i) == Scanned(t, [])
  {
    if i > 0 {
      ScanIdle(t, names, stamps, execute, answers, i - 1);
    }
  }

  /** Scanning again right after a scan is a no-op. */
  lemma {:induction false} RescanNoOp(t: Tree, names: seq<string>, stamps: seq<string>, execute: Executor, answers: seq<bool>,
                   names': seq<string>, stamps': seq<string>, answers': seq<bool>)
    requires IsListing(names, t) && SameWidth(stamps) && |stamps| == |names| && |answers| == |names|
    requires |stamps'| == |names'| && |answers'| == |names'|
    ensures var final := ScanUpTo(t, names, stamps, execute, answers, |names|).tree;
      ScanUpTo(final, names', stamps', execute, answers', |names'|) == Scanned(final, [])
  {
    ScanClears(t, names, stamps, execute, answers);
    ScanIdle(ScanUpTo(t, names, stamps, execute, answers, |names|).tree, names', stamps', execute, answers', |names'|);
  }

  // ---------------------------------------------------------------------------
  // scan_for_decisions as written: an exception ends the scan
  // ---------------------------------------------------------------------------

  /** An executor that may raise, as `execute_action` as written does for every LinkedIn post. */
  type RaisingExecutor = (string, bool) -> Result<Outcome>

  /** The handler's executor as written: parse the draft, then run `execute_action` as written. */
  function HandlerExecutorAsWritten(password: string): RaisingExecutor {
    (content: string, answer: bool) => ExecuteActionAsWritten(Parse(content), password, answer)
  }

  /** Whenever `execute` answers, it answers as `fixed` does. */
  ghost predicate RaisesOrAgrees(execute: RaisingExecutor, fixed: Executor) {
    forall c, a :: execute(c, a).Ok? ==> execute(c, a).value == fixed(c, a)
  }

  /**
   * The handler's executor as written answers as the corrected one, and
   * raises exactly on the drafts that parse to a LinkedIn post, always with
   * the same `ImportError`.
   */
  lemma HandlerExecutorsAgree(password: string)
    ensures RaisesOrAgrees(HandlerExecutorAsWritten(password), HandlerExecutor(password))
    ensures forall c, a :: HandlerExecutorAsWritten(password)(c, a).Raised? <==> Parse(c).kind == LINKEDIN_POST
    ensures forall c, a :: HandlerExecutorAsWritten(password)(c, a).Raised? ==> HandlerExecutorAsWritten(password)(c, a).error == IMPORT_ERROR
  {
  }

  /** The vault and the executor requests after part of a scan, and the exception that ended it, if one did. */
  datatype Halted = Halted(tree: Tree, calls: seq<Call>, error: Option<string>)

  /**
   * One iteration as written: an approved file whose executor raises is
   * neither executed nor archived, and the exception leaves the loop.
   */
  function ScanEntryAsWritten(t: Tree, name: string, stamp: string, execute: RaisingExecutor, answer: bool): Result<Scanned> {
    if !IsFile(t, ApprovalRequired, name) then Ok(Scanned(t, []))
    else if StartsWith(name, APPROVED) then
      match execute(Files(t, ApprovalRequired)[name].content, answer)
      case Raised(e) => Raised(e)
      case Ok(o) => Ok(Scanned(Move(t, ApprovalRequired, name, Done, ArchiveName(ResultTag(o), stamp, name)), o.calls))
    else if StartsWith(name, REJECTED) then
      Ok(Scanned(Move(t, ApprovalRequired, name, Done, ArchiveName(REJECTED_TAG, stamp, name)), []))
    else Ok(Scanned(t, []))
  }

  /** One more iteration as written; after an exception nothing more happens. */
  function NextAsWritten(h: Halted, name: string, stamp: string, execute: RaisingExecutor, answer: bool): Halted {
    if h.error.Some? then h
    else
      match ScanEntryAsWritten(h.tree, name, stamp, execute, answer)
      case Raised(e) => Halted(h.tree, h.calls, Some(e))
      case Ok(step) => Halted(step.tree, h.calls + step.calls, None)
  }

  /** The state after the first `i` iterations as written. */
  function ScanAsWritten(t: Tree, names: seq<string>, stamps: seq<string>, execute: RaisingExecutor, answers: seq<bool>, i: nat): Halted
    requires i <= |names| && |stamps| == |names| && |answers| == |names|
  {
    if i == 0 then Halted(t, [], None)
    else NextAsWritten(ScanAsWritten(t, names, stamps, execute, answers, i - 1), names[i - 1], stamps[i - 1], execute, answers[i - 1])
  }

  /**
   * `scan_for_decisions` as written, over the listing `names` of the approval
   * folder; `stamps[i]` is the time at which entry `i` is archived and
   * `answers[i]` what its executor reports. An exception leaves the method
   * with the vault as it then is; `error` is what `main` logs.
   */
  method ScanForDecisions(store: Store, names: seq<string>, stamps: seq<string>, password: string, answers: seq<bool>)
      returns (calls: seq<Call>, error: Option<string>)
    requires |stamps| == |names| && |answers| == |names|
    modifies store
    ensures Halted(store.tree, calls, error) == ScanAsWritten(old(store.tree), names, stamps, HandlerExecutorAsWritten(password), answers, |names|)
  {
    ghost var t0 := store.tree;
    ghost var execute := HandlerExecutorAsWritten(password);
    calls, error := [], None;
    var i := 0;
    while i < |names| && error.None?
      invariant 0 <= i <= |names|
      invariant Halted(store.tree, calls, error) == ScanAsWritten(t0, names, stamps, execute, answers, i)
    {
      var name := names[i];
      ghost var next := NextAsWritten(Halted(store.tree, calls, error), name, stamps[i], execute, answers[i]);
      assert next == ScanAsWritten(t0, names, stamps, execute, answers, i + 1);
      ghost var step := ScanEntryAsWritten(store.tree, name, stamps[i], execute, answers[i]);
      if IsFile(store.tree, ApprovalRequired, name) {
        if StartsWith(name, APPROVED) {
          var action := ParseActionFile(Files(store.tree, ApprovalRequired)[name].content);
          var r := ExecuteActionAsWritten(action, password, answers[i]);
          assert step == if r.Raised? then Raised(r.error)
            else Ok(Scanned(Move(store.tree, ApprovalRequired, name, Done, ArchiveName(ResultTag(r.value), stamps[i], name)), r.value.calls));
          if r.Raised? {
            error := Some(r.error);
          } else {
            store.MoveFile(ApprovalRequired, name, Done, ArchiveName(ResultTag(r.value), stamps[i], name));
            calls := calls + r.value.calls;
          }
        } else if StartsWith(name, REJECTED) {
          store.MoveFile(ApprovalRequired, name, Done, ArchiveName(REJECTED_TAG, stamps[i], name));
        }
      }
      i := i + 1;
    }
    if error.Some? {
      HaltedStays(t0, names, stamps, execute, answers, i, |names|);
    }
  }

  /** Once a scan has raised, the later iterations change nothing. */
  lemma {:induction false} HaltedStays(t: Tree, names: seq<string>, stamps: seq<string>, execute: RaisingExecutor, answers: seq<bool>, k: nat, i: nat)
    requires |stamps| == |names| && |answers| == |names| && k <= i <= |names|
    requires ScanAsWritten(t, names, stamps, execute, answers, k).error.Some?
    ensures ScanAsWritten(t, names, stamps, execute, answers, i) == ScanAsWritten(t, names, stamps, execute, answers, k)
    decreases i
  {
    if i > k {
      HaltedStays(t, names, stamps, execute, answers, k, i - 1);
    }
  }

  /** The entry `name` of `t` is an approved file whose executor raises. */
  predicate Raises(t: Tree, name: string, execute: RaisingExecutor, answer: bool) {
    IsFile(t, ApprovalRequired, name) && StartsWith(name, APPROVED)
    && execute(Files(t, ApprovalRequired)[name].content, answer).Raised?
  }

  /** Whether an entry raises depends on the entry only. */
  lemma RaisesOnEntry(t: Tree, t': Tree, name: string, execute: RaisingExecutor, answer: bool)
    requires name in Files(t, ApprovalRequired) && name in Files(t', ApprovalRequired)
    requires Files(t', ApprovalRequired)[name] == Files(t, ApprovalRequired)[name]
    ensures Raises(t', name, execute, answer) == Raises(t, name, execute, answer)
  {
  }

  /** An iteration as written raises exactly on a raising file, and otherwise is the iteration with the answering executor. */
  lemma {:induction false} ScanEntryAgrees(t: Tree, name: string, stamp: string, execute: RaisingExecutor, fixed: Executor, answer: bool)
    requires RaisesOrAgrees(execute, fixed)
    ensures ScanEntryAsWritten(t, name, stamp, execute, answer).Raised? <==> Raises(t, name, execute, answer)
    ensures ScanEntryAsWritten(t, name, stamp, execute, answer).Ok? ==>
      ScanEntryAsWritten(t, name, stamp, execute, answer).value == ScanEntry(t, name, stamp, fixed, answer)
  {
    if IsFile(t, ApprovalRequired, name) && StartsWith(name, APPROVED) {
      var c := Files(t, ApprovalRequired)[name].content;
      if execute(c, answer).Ok? {
        assert execute(c, answer).value == fixed(c, answer);
      }
    }
  }

  /** From the same state, an iteration that does not raise goes as with the answering executor. */
  lemma StepAgrees(p: Scanned, name: string, stamp: string, execute: RaisingExecutor, fixed: Executor, answer: bool)
    requires RaisesOrAgrees(execute, fixed) && !Raises(p.tree, name, execute, answer)
    ensures var step := ScanEntry(p.tree, name, stamp, fixed, answer);
      NextAsWritten(Halted(p.tree, p.calls, None), name, stamp, execute, answer) == Halted(step.tree, p.calls + step.calls, None)
  {
    ScanEntryAgrees(p.tree, name, stamp, execute, fixed, answer);
  }

  /**
   * Until an approved file raises, the scan as written is the scan with the
   * answering executor: same vault, same requests, no exception.
   */
  lemma {:induction false} AsWrittenFollowsCorrected(t: Tree, names: seq<string>, stamps: seq<string>, execute: RaisingExecutor,
                                                     fixed: Executor, answers: seq<bool>, i: nat)
    requires IsListing(names, t) && |stamps| == |names| && |answers| == |names| && i <= |names|
    requires RaisesOrAgrees(execute, fixed)
    requires forall j :: 0 <= j < i ==> !Raises(t, names[j], execute, answers[j])
    ensures var s := ScanUpTo(t, names, stamps, fixed, answers, i);
      ScanAsWritten(t, names, stamps, execute, answers, i) == Halted(s.tree, s.calls, None)
  {
    if i > 0 {
      AsWrittenFollowsCorrected(t, names, stamps, execute, fixed, answers, i - 1);
      assert !Raises(t, names[i - 1], execute, answers[i - 1]);
      FollowsOneMore(t, names, stamps, execute, fixed, answers, i);
    }
  }

  /** One more iteration that does not raise keeps the scan as written in step with the answering scan. */
  lemma FollowsOneMore(t: Tree, names: seq<string>, stamps: seq<string>, execute: RaisingExecutor,
                       fixed: Executor, answers: seq<bool>, i: nat)
    requires IsListing(names, t) && |stamps| == |names| && |answers| == |names| && 0 < i <= |names|
    requires RaisesOrAgrees(execute, fixed) && !Raises(t, names[i - 1], execute, answers[i - 1])
    requires var s := ScanUpTo(t, names, stamps, fixed, answers, i - 1);
      ScanAsWritten(t, names, stamps, execute, answers, i - 1) == Halted(s.tree, s.calls, None)
    ensures var s := ScanUpTo(t, names, stamps, fixed, answers, i);
      ScanAsWritten(t, names, stamps, execute, answers, i) == Halted(s.tree, s.calls, None)
  {
    var prev := ScanUpTo(t, names, stamps, fixed, answers, i - 1);
    EntryBeforeTurn(t, names, stamps, fixed, answers, i - 1, i - 1);
    RaisesOnEntry(t, prev.tree, names[i - 1], execute, answers[i - 1]);
    StepAgrees(prev, names[i - 1], stamps[i - 1], execute, fixed, answers[i - 1]);
  }

  /** A scan that ended without an exception met no raising file. */
  lemma {:induction false} ErrorFreeNoRaise(t: Tree, names: seq<string>, stamps: seq<string>, execute: RaisingExecutor,
                                            fixed: Executor, answers: seq<bool>, i: nat)
    requires IsListing(names, t) && |stamps| == |names| && |answers| == |names| && i <= |names|
    requires RaisesOrAgrees(execute, fixed)
    requires ScanAsWritten(t, names, stamps, execute, answers, i).error.None?
    ensures forall j :: 0 <= j < i ==> !Raises(t, names[j], execute, answers[j])
  {
    if exists j :: 0 <= j < i && Raises(t, names[j], execute, answers[j]) {
      var k := FirstRaiser(t, names, execute, answers, i);
      FirstRaiseHalts(t, names, stamps, execute, fixed, answers, k);
      HaltedStays(t, names, stamps, execute, answers, k + 1, i);
      assert false;
    }
  }

  /** Among the first `i` listed entries that raise, the first one. */
  lemma {:induction false} FirstRaiser(t: Tree, names: seq<string>, execute: RaisingExecutor, answers: seq<bool>, i: nat) returns (k: nat)
    requires |answers| == |names| && i <= |names|
    requires exists j :: 0 <= j < i && Raises(t, names[j], execute, answers[j])
    ensures k < i && Raises(t, names[k], execute, answers[k])
    ensures forall j :: 0 <= j < k ==> !Raises(t, names[j], execute, answers[j])
  {
    if exists j :: 0 <= j < i - 1 && Raises(t, names[j], execute, answers[j]) {
      k := FirstRaiser(t, names, execute, answers, i - 1);
    } else {
      k := i - 1;
    }
  }

  /**
   * The scan as written ends without an exception exactly when no listed
   * approved file raises, and then it is the scan with the answering
   * executor, so everything proved about that scan holds for it.
   */
  lemma {:induction false} ScanAsWrittenOk(t: Tree, names: seq<string>, stamps: seq<string>, execute: RaisingExecutor, fixed: Executor, answers: seq<bool>)
    requires IsListing(names, t) && |stamps| == |names| && |answers| == |names|
    requires RaisesOrAgrees(execute, fixed)
    ensures var final := ScanAsWritten(t, names, stamps, execute, answers, |names|);
      var s := ScanUpTo(t, names, stamps, fixed, answers, |names|);
      && (final.error.None? <==> forall j :: 0 <= j < |names| ==> !Raises(t, names[j], execute, answers[j]))
      && (final.error.None? ==> final.tree == s.tree && final.calls == s.calls)
  {
    if ScanAsWritten(t, names, stamps, execute, answers, |names|).error.None? {
      ErrorFreeNoRaise(t, names, stamps, execute, fixed, answers, |names|);
    }
    if forall j :: 0 <= j < |names| ==> !Raises(t, names[j], execute, answers[j]) {
      AsWrittenFollowsCorrected(t, names, stamps, execute, fixed, answers, |names|);
    }
  }

  /**
   * The first raising file ends the scan: the vault and the requests are
   * those of the iterations before it (as `ScanOutcome` and `ScanCalls`
   * describe them), the exception is that file's, and it and every entry
   * listed after it are still in the approval folder, unchanged.
   */
  lemma {:induction false} ScanStopsAtRaise(t: Tree, names: seq<string>, stamps: seq<string>, execute: RaisingExecutor, fixed: Executor, answers: seq<bool>, k: nat)
    requires IsListing(names, t) && |stamps| == |names| && |answers| == |names| && k < |names|
    requires RaisesOrAgrees(execute, fixed)
    requires forall j :: 0 <= j < k ==> !Raises(t, names[j], execute, answers[j])
    requires Raises(t, names[k], execute, answers[k])
    ensures var final := ScanAsWritten(t, names, stamps, execute, answers, |names|);
      var before := ScanUpTo(t, names, stamps, fixed, answers, k);
      && final == Halted(before.tree, before.calls, Some(execute(Files(t, ApprovalRequired)[names[k]].content, answers[k]).error))
      && forall j :: k <= j < |names| ==>
           names[j] in Files(final.tree, ApprovalRequired) && Files(final.tree, ApprovalRequired)[names[j]] == Files(t, ApprovalRequired)[names[j]]
  {
    FirstRaiseHalts(t, names, stamps, execute, fixed, answers, k);
    HaltedStays(t, names, stamps, execute, answers, k + 1, |names|);
    LaterEntriesWait(t, names, stamps, fixed, answers, k);
  }

  /** The iteration of the first raising file ends in the state before it, with that file's exception. */
  lemma {:induction false} FirstRaiseHalts(t: Tree, names: seq<string>, stamps: seq<string>, execute: RaisingExecutor, fixed: Executor, answers: seq<bool>, k: nat)
    requires IsListing(names, t) && |stamps| == |names| && |answers| == |names| && k < |names|
    requires RaisesOrAgrees(execute, fixed)
    requires forall j :: 0 <= j < k ==> !Raises(t, names[j], execute, answers[j])
    requires Raises(t, names[k], execute, answers[k])
    ensures var before := ScanUpTo(t, names, stamps, fixed, answers, k);
      ScanAsWritten(t, names, stamps, execute, answers, k + 1)
      == Halted(before.tree, before.calls, Some(execute(Files(t, ApprovalRequired)[names[k]].content, answers[k]).error))
  {
    AsWrittenFollowsCorrected(t, names, stamps, execute, fixed, answers, k);
    var before := ScanUpTo(t, names, stamps, fixed, answers, k);
    EntryBeforeTurn(t, names, stamps, fixed, answers, k, k);
    RaisesOnEntry(t, before.tree, names[k], execute, answers[k]);
    ScanEntryAgrees(before.tree, names[k], stamps[k], execute, fixed, answers[k]);
  }

  /** After `k` iterations, every entry listed from `k` on is still in the approval folder, unchanged. */
  lemma {:induction false} LaterEntriesWait(t: Tree, names: seq<string>, stamps: seq<string>, execute: Executor, answers: seq<bool>, k: nat)
    requires IsListing(names, t) && |stamps| == |names| && |answers| == |names| && k <= |names|
    ensures var tk := ScanUpTo(t, names, stamps, execute, answers, k).tree;
      forall j :: k <= j < |names| ==>
        names[j] in Files(tk, ApprovalRequired) && Files(tk, ApprovalRequired)[names[j]] == Files(t, ApprovalRequired)[names[j]]
  {
    forall j | k <= j < |names|
      ensures var tk := ScanUpTo(t, names, stamps, execute, answers, k).tree;
        names[j] in Files(tk, ApprovalRequired) && Files(tk, ApprovalRequired)[names[j]] == Files(t, ApprovalRequired)[names[j]]
    {
      EntryBeforeTurn(t, names, stamps, execute, answers, j, k);
    }
  }

  /** A raising file is never moved by the scan as written, wherever it is listed. */
  lemma {:induction false} RaiserStays(t: Tree, names: seq<string>, stamps: seq<string>, execute: RaisingExecutor, fixed: Executor,
                                       answers: seq<bool>, k: nat, i: nat)
    requires IsListing(names, t) && |stamps| == |names| && |answers| == |names| && k < |names| && i <= |names|
    requires RaisesOrAgrees(execute, fixed)
    requires Raises(t, names[k], execute, answers[k])
    ensures var ti := ScanAsWritten(t, names, stamps, execute, answers, i).tree;
      names[k] in Files(ti, ApprovalRequired) && Files(ti, ApprovalRequired)[names[k]] == Files(t, ApprovalRequired)[names[k]]
  {
    if i > 0 {
      RaiserStays(t, names, stamps, execute, fixed, answers, k, i - 1);
      var prev := ScanAsWritten(t, names, stamps, execute, answers, i - 1);
      if prev.error.None? {
        ScanEntryAgrees(prev.tree, names[i - 1], stamps[i - 1], execute, fixed, answers[i - 1]);
        if i - 1 == k {
          RaisesOnEntry(t, prev.tree, names[k], execute, answers[k]);
        } else {
          ListedOnce(names, t, i - 1, k);
          ScanEntryFrame(prev.tree, names[i - 1], stamps[i - 1], fixed, answers[i - 1]);
        }
      }
    }
  }

  /** Every exception of the handler's scan as written is the `ImportError`. */
  lemma {:induction false} HandlerScanError(t: Tree, names: seq<string>, stamps: seq<string>, password: string, answers: seq<bool>, i: nat)
    requires |stamps| == |names| && |answers| == |names| && i <= |names|
    ensures ScanAsWritten(t, names, stamps, HandlerExecutorAsWritten(password), answers, i).error in {None, Some(IMPORT_ERROR)}
  {
    if i > 0 {
      HandlerScanError(t, names, stamps, password, answers, i - 1);
      HandlerExecutorsAgree(password);
    }
  }

  /**
   * As written, an approved LinkedIn draft blocks the handler: the scan
   * raises the `ImportError`, the draft stays in the approval folder
   * unchanged, and every later scan, over any listing of the folder as that
   * scan left it and whatever the answers, raises again.
   */
  lemma {:induction false} ApprovedPostBlocksScan(t: Tree, names: seq<string>, stamps: seq<string>, password: string, answers: seq<bool>, k: nat,
                               names': seq<string>, stamps': seq<string>, answers': seq<bool>)
    requires IsListing(names, t) && |stamps| == |names| && |answers| == |names| && k < |names|
    requires IsFile(t, ApprovalRequired, names[k]) && StartsWith(names[k], APPROVED)
    requires Contains(Files(t, ApprovalRequired)[names[k]].content, POST_MARKER)
    ensures var final := ScanAsWritten(t, names, stamps, HandlerExecutorAsWritten(password), answers, |names|).tree;
      && ScanAsWritten(t, names, stamps, HandlerExecutorAsWritten(password), answers, |names|).error == Some(IMPORT_ERROR)
      && names[k] in Files(final, ApprovalRequired) && Files(final, ApprovalRequired)[names[k]] == Files(t, ApprovalRequired)[names[k]]
      && (IsListing(names', final) && |stamps'| == |names'| && |answers'| == |names'| ==>
            ScanAsWritten(final, names', stamps', HandlerExecutorAsWritten(password), answers', |names'|).error == Some(IMPORT_ERROR))
  {
    var execute, fixed := HandlerExecutorAsWritten(password), HandlerExecutor(password);
    HandlerExecutorsAgree(password);
    ParsePost(Files(t, ApprovalRequired)[names[k]].content);
    assert Raises(t, names[k], execute, answers[k]);
    ScanAsWrittenOk(t, names, stamps, execute, fixed, answers);
    HandlerScanError(t, names, stamps, password, answers, |names|);
    RaiserStays(t, names, stamps, execute, fixed, answers, k, |names|);
    var final := ScanAsWritten(t, names, stamps, execute, answers, |names|).tree;
    if IsListing(names', final) && |stamps'| == |names'| && |answers'| == |names'| {
      var k' :| 0 <= k' < |names'| && names'[k'] == names[k];
      assert Raises(final, names'[k'], execute, answers'[k']);
      ScanAsWrittenOk(final, names', stamps', execute, fixed, answers');
      HandlerScanError(final, names', stamps', password, answers', |names'|);
    }
  }
}
