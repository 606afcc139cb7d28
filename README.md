# Personal AI Employee, Silver tier: a verified model

The Silver tier is a set of Python scripts working around an Obsidian-style
vault. The vault has the folders `Inbox`, `Needs_Action`,
`Needs_Action/APPROVAL_REQUIRED` and `Done`. The model covers six of the scripts:

- **Watchers** poll an outside source; the loop they share is `BaseWatcher.run`.
  - The Gmail watcher lists unread important messages and fetches each new one.
  - The WhatsApp watcher scans the chat rows of WhatsApp Web for trigger keywords.
  - For every new item a watcher writes a Markdown action file into
    `Needs_Action`, records the item as processed and starts the agent runner on the file.
- **The agent runner** takes one item: a file of `Inbox`, or the action file in
  `Needs_Action` a watcher starts it on.
  - It skips a blank file.
  - It asks the Qwen model for a reply.
  - An e-mail request becomes an e-mail draft in `APPROVAL_REQUIRED`, with the
    recipient found by a regular expression. Any other item gets a reply file in `Needs_Action`.
  - Either way, it moves the item to `Done`.
- **The LinkedIn poster** gathers the three newest files of `Done`, asks the
  model for a post and, unless the reply holds `[ERROR]`, saves a draft into
  `APPROVAL_REQUIRED`.
- **The approval handler** watches `APPROVAL_REQUIRED`. A person renames a
  draft to `APPROVED_…` or `REJECTED_…`.
  - An approved file is parsed and executed: an SMTP send or a LinkedIn post.
    The file is then moved to `Done` as `EXECUTED_…` or `FAILED_…`.
  - A rejected file is moved to `Done` as `REJECTED_…`.

How each part is modelled:

- **Vault.** A map from folder to file name to entry (file with content and
  time, or directory). `Store` is the vault as an object whose methods write
  and move files.
- **Python string built-ins** (module `Text`). The parser and the watchers use
  `strip`, `in`/`find`, `split`, `replace`, `lower`/`upper`, slicing and `join`.
  These are modelled to match Python's behaviour.
- **Outside services.** The Qwen call, the Gmail API, the browser and the SMTP
  session become inputs:
  - the result a subprocess call ended with;
  - functions for fetching, marking read and decoding;
  - the chat rows;
  - the answer an executor reports.
- **Clock.** Each clock reading is a parameter.
- **Pure code and imperative code.** Pure code is functions and lemmas. Code
  that loops or changes state is methods proved equal to those functions:
  - `scan_for_decisions`;
  - the body of the agent runner;
  - `get_recent_activity`;
  - the header and body loops of the Gmail watcher;
  - the keyword scan of the WhatsApp watcher;
  - the watchers' `run` loop.
- **Watchers.** Classes holding a `BaseWatcher.Watcher` (composition in place
  of inheritance). Each has a `Poll` method for one pass of the loop and a
  `Run` method for a sequence of passes.

What is proved, in outline:

- **Parser.** Each field takes its last line. Each section is the stripped
  text after the marker's last occurrence, cut at the first `---`.
- **Draft round trips.** The e-mail draft the agent runner writes parses back
  to a `SEND_EMAIL` action with the same recipient, subject and stripped reply.
  This holds when the reply is not blank, has no line starting with `**To:**`
  or `**Subject:**`, and contains no `---` and no section heading. The post
  draft the LinkedIn poster writes parses back to a `LINKEDIN_POST` with the
  stripped post, a blank post included, when the post contains no `---` and no
  post heading. A reply with a `---` loses everything after it.
- **The scan with an executor that always answers** (the corrected handler).
  Every approved or rejected file ends up in `Done`, under a distinct name and
  with its content unchanged. Every other entry stays where it is. The executor
  calls come in listing order. A second scan does nothing.
- **The scan as written.** It is that scan exactly when no listed approved
  file raises. The first one that raises ends the scan: the files before it
  are handled as above, and it and every file listed after it stay in place,
  unchanged. An approved LinkedIn draft always raises, so every later scan
  raises on it again.
- **The agent runner.** Which folder gets which file, and that the item always
  ends in `Done` unless it was blank or unreadable.
- **The address pattern.** The leftmost-longest semantics of
  `[\w.-]+@[\w.-]+\.\w+`.
- **LinkedIn activity.** The selection of the three newest `Done` entries is a
  sort newest-first that is a permutation and stable (entries with the same
  time keep their listing order), cut to three. Only `.txt`/`.md`
  entries are summarised.
- **Gmail watcher.** An id is recorded only after the file is written and the
  message marked read. A recorded id is never polled again.
- **WhatsApp watcher.** The first keyword in list order decides. A handled
  fingerprint is never reported again. The file name is safe: at most 20
  characters of the sender, with no space, `/`, `\` or `:`.
- **The shared loop.** It handles the items in order. The first exception
  ends the pass, and polling goes on.

Two behaviours of the code worth noting:

- An approved file whose type is neither `SEND_EMAIL` nor `LINKEDIN_POST` is
  archived as `FAILED_…` (approval_handler.py:141-143, 168). It is not left in place.
- Every approved LinkedIn draft raises `ImportError` (see Findings).

## Model

| member | source | states |
|---|---|---|
| Vault.FolderLayout | Silver-Tier/base_watcher.py:44-47 | the four folders have distinct paths and `APPROVAL_REQUIRED` lies inside `Needs_Action` |
| Vault.Write | Silver-Tier/base_watcher.py:115-116 | writing creates or overwrites exactly the one file, with the new content and time; every other entry and folder is unchanged |
| Vault.Move | Silver-Tier/approval_handler.py:146-150 | `shutil.move`: the entry arrives under the new name with its content, leaves the source folder, and nothing else in either folder or elsewhere changes |
| Vault.MoveKeepsOthers | Silver-Tier/agent_runner.py:258-262 | a move between folders to a free name takes one entry out of the source and adds one to the destination |
| Vault.Store.WriteFile | Silver-Tier/agent_runner.py:179-180 | the store's new tree is the old tree with the file written |
| Vault.Store.MoveFile | Silver-Tier/agent_runner.py:262 | the store's new tree is the old tree with the entry moved |
| Text.StripShape | Silver-Tier/approval_handler.py:67 | `str.strip()` removes exactly the leading and trailing whitespace: the result sits inside the text with only whitespace around it and has none at its ends |
| Text.StripIdempotent | Silver-Tier/approval_handler.py:76-77 | stripping twice is stripping once |
| Text.StripEmptyIffBlank | Silver-Tier/agent_runner.py:280 | a text strips to `""` exactly when it is all whitespace |
| Text.Find | Silver-Tier/approval_handler.py:75 | the index returned is the first occurrence; no index when the pattern never occurs |
| Text.ContainsIff | Silver-Tier/approval_handler.py:75 | Python's `p in s` holds exactly when `p` occurs at some index |
| Text.ReplaceLeadingMarker | Silver-Tier/approval_handler.py:67 | `line.replace(marker, "")` on a line starting with the only occurrence of the marker yields the rest of the line |
| Text.ReplaceAllChars | Silver-Tier/whatsapp_watcher.py:120 | every character of `s.replace(p, rep)` comes from `s` or from `rep` |
| Text.ReplaceCharRemoves | Silver-Tier/whatsapp_watcher.py:120 | replacing a one-character pattern by a text without that character removes it everywhere |
| Text.FirstPiece | Silver-Tier/approval_handler.py:77 | `split(sep)[0]` is a prefix that is the whole text or is followed by the separator |
| Text.CutSection | Silver-Tier/approval_handler.py:76-77 | a body followed by a blank line and a `---` line comes back stripped after `strip`, `split("---")[0]` and `strip`, a blank body as `""` |
| Text.FirstPieceIsFirst | Silver-Tier/approval_handler.py:77 | `split(sep)[0]` holds no occurrence of the separator, so it stops at the first one |
| Text.LastPieceShape | Silver-Tier/approval_handler.py:76 | `split(sep)[-1]` is a suffix without the separator, preceded by an occurrence of it unless it is the whole text |
| Text.SplitJoin | Silver-Tier/approval_handler.py:53 | `"\n".join(s.split("\n")) == s` and no piece holds a line break |
| Text.Take | Silver-Tier/whatsapp_watcher.py:99 | `s[:n]` is a prefix of length `min(n, len(s))` |
| Text.LastIndex | Silver-Tier/linkedin_poster.py:48 | the last index of a character before a bound, or none when it does not occur there |
| Text.LowerIdempotent | Silver-Tier/agent_runner.py:293 | lowering twice is lowering once |
| Text.UpperOfLower | Silver-Tier/agent_runner.py:198 | upper-casing a lowered text is upper-casing the text |
| Text.LowerContains | Silver-Tier/agent_runner.py:293 | a phrase that occurs still occurs, lowered, in the lowered text |
| Text.UpperContains | Silver-Tier/agent_runner.py:198 | a word that occurs still occurs, upper-cased, in the upper-cased text |
| Text.ConcatContains | Silver-Tier/whatsapp_watcher.py:122-150 | every piece of a joined template occurs in the joined text |
| ApprovalHandler.ParseActionFile | Silver-Tier/approval_handler.py:50-89 | the loop over the lines and the three section checks compute the parsed action, whose raw text is the file content |
| ApprovalHandler.MarkersExclusive | Silver-Tier/approval_handler.py:65-72 | a line starts with at most one of `**To:**`, `**Subject:**`, `**Action:**`, so the order of the `elif` chain does not matter |
| ApprovalHandler.LastFieldIsLast | Silver-Tier/approval_handler.py:65-72 | a field takes the value of its last line starting with the marker, marker removed and stripped |
| ApprovalHandler.LastFieldDefault | Silver-Tier/approval_handler.py:55-62 | without such a line the field keeps its default |
| ApprovalHandler.LastFieldStep | Silver-Tier/approval_handler.py:65-72 | one more line changes the field exactly when it starts with the marker |
| ApprovalHandler.ParseDefaults | Silver-Tier/approval_handler.py:55-62 | a file with no field line and no section heading parses to type `unknown`, empty fields and the raw content |
| ApprovalHandler.ParseToLastWins | Silver-Tier/approval_handler.py:66-67 | the recipient is the value of the last `**To:**` line |
| ApprovalHandler.ParseSubjectLastWins | Silver-Tier/approval_handler.py:68-69 | the subject is the value of the last `**Subject:**` line |
| ApprovalHandler.ParseKindLastWins | Silver-Tier/approval_handler.py:70-72 | without a section heading, the type is the value of the last `**Action:**` line |
| ApprovalHandler.ExtractShape | Silver-Tier/approval_handler.py:76-77 | a section is stripped, holds no `---`, and is taken from the text after the marker's last occurrence |
| ApprovalHandler.ExtractSection | Silver-Tier/approval_handler.py:76-77 | a section laid out as heading, body, blank line, `---` gives back the stripped body |
| ApprovalHandler.ParseBody | Silver-Tier/approval_handler.py:74-82 | the e-mail heading wins over the draft-body heading, either sets `SEND_EMAIL` unless a post section follows, and without both the body is empty |
| ApprovalHandler.ParsePost | Silver-Tier/approval_handler.py:84-87 | a post section sets `LINKEDIN_POST` with its extracted text, overriding everything else; without one, `LINKEDIN_POST` can only come from the last `**Action:**` line |
| ApprovalHandler.SendEmail | Silver-Tier/approval_handler.py:92-116 | without an SMTP password nothing is sent and the send fails; otherwise exactly one SMTP send with the recipient, subject and body, succeeding as the session does |
| ApprovalHandler.ExecuteAction | Silver-Tier/approval_handler.py:128-143 | success needs exactly one call; SMTP calls happen only for `SEND_EMAIL` with the action's fields, LinkedIn calls only for `LINKEDIN_POST` with the post text; any other type fails with no call |
| ApprovalHandler.ApprovedPostRaisesAsWritten | Silver-Tier/approval_handler.py:136-139 | as written, every file with a post section raises `ImportError`; the corrected executor makes one LinkedIn call with the post section |
| ApprovalHandler.AsWrittenAgreesElsewhere | Silver-Tier/approval_handler.py:128-143 | for every type but `LINKEDIN_POST` the as-written and corrected executors agree |
| ApprovalHandler.ArchiveNameShape | Silver-Tier/approval_handler.py:148-149 | the archive name starts with the tag and ends with the original name |
| ApprovalHandler.ArchiveNamesDistinct | Silver-Tier/approval_handler.py:146-150 | with equal-width time stamps, two different file names never get the same archive name, whatever their tags |
| ApprovalHandler.ScanForDecisions | Silver-Tier/approval_handler.py:154-172 | the loop over the listing, with the executor as written, ends in the vault, the executor calls and the exception (if one left the loop) of the as-written scan |
| ApprovalHandler.ScanEntryFrame | Silver-Tier/approval_handler.py:158-172 | one iteration changes only its own entry in the approval folder and only that entry's archive names in `Done` |
| ApprovalHandler.EntryBeforeTurn | Silver-Tier/approval_handler.py:158-162 | a listed entry is still unchanged when its turn comes |
| ApprovalHandler.ArchiveSurvives | Silver-Tier/approval_handler.py:158-172 | an archived entry stays archived, with its content, through the rest of the scan |
| ApprovalHandler.EntryStays | Silver-Tier/approval_handler.py:158-172 | an entry left in place stays unchanged through the rest of the scan |
| ApprovalHandler.ScanOutcome | Silver-Tier/approval_handler.py:158-172 | with an executor that always answers, each listed entry handled so far ends as it should: an approved file archived as `EXECUTED_`/`FAILED_` by its executor's answer, a rejected file as `REJECTED_`, content kept; anything else stays unchanged |
| ApprovalHandler.ScanCalls | Silver-Tier/approval_handler.py:164-168 | with an executor that always answers, the executor calls are those of the approved files, in listing order |
| ApprovalHandler.ScanShrinksApproval | Silver-Tier/approval_handler.py:154-172 | a scan adds nothing to the approval folder and leaves the entries it does not move unchanged |
| ApprovalHandler.ScanClears | Silver-Tier/approval_handler.py:154-172 | with an executor that always answers, after a scan no file named `APPROVED_…` or `REJECTED_…` is left |
| ApprovalHandler.ScanIdle | Silver-Tier/approval_handler.py:154-172 | with no decision pending, a scan changes nothing and calls nothing |
| ApprovalHandler.RescanNoOp | Silver-Tier/approval_handler.py:182-187 | with an executor that always answers, the scan after a scan, over any listing, changes nothing and calls nothing |
| ApprovalHandler.ListedOnce | Silver-Tier/approval_handler.py:158 | two positions of a listing of the approval folder name two different entries |
| ApprovalHandler.HandlerExecutorsAgree | Silver-Tier/approval_handler.py:128-143 | whenever the handler's executor as written answers, it answers as the corrected one; it raises exactly on drafts that parse to `LINKEDIN_POST`, always with the `ImportError` |
| ApprovalHandler.HaltedStays | Silver-Tier/approval_handler.py:182-186 | once an exception has left the loop, the rest of the listing changes nothing |
| ApprovalHandler.RaisesOnEntry | Silver-Tier/approval_handler.py:164-166 | whether an entry raises depends only on that entry |
| ApprovalHandler.ScanEntryAgrees | Silver-Tier/approval_handler.py:158-172 | one iteration as written raises exactly on an approved file whose executor raises, and otherwise is the iteration with the answering executor |
| ApprovalHandler.StepAgrees | Silver-Tier/approval_handler.py:158-172 | from the same state, an iteration that does not raise goes as with the answering executor |
| ApprovalHandler.AsWrittenFollowsCorrected | Silver-Tier/approval_handler.py:158-172 | until an approved file raises, the scan as written has the vault and calls of the scan with the answering executor, and no exception |
| ApprovalHandler.ErrorFreeNoRaise | Silver-Tier/approval_handler.py:158-172 | a scan as written that ended without exception met no raising file |
| ApprovalHandler.ScanAsWrittenOk | Silver-Tier/approval_handler.py:154-172 | the scan as written ends without exception exactly when no listed approved file raises, and then it is the scan with the answering executor |
| ApprovalHandler.ScanStopsAtRaise | Silver-Tier/approval_handler.py:164-166 | the first raising file ends the scan: vault and calls are those of the iterations before it, the exception is that file's, and it and every entry listed after it are still in the approval folder, unchanged |
| ApprovalHandler.FirstRaiseHalts | Silver-Tier/approval_handler.py:164-166 | the iteration of the first raising file leaves the vault and calls of the iterations before it and records that file's exception |
| ApprovalHandler.LaterEntriesWait | Silver-Tier/approval_handler.py:158-172 | after the first `k` iterations every entry listed from `k` on is still in the approval folder, unchanged |
| ApprovalHandler.RaiserStays | Silver-Tier/approval_handler.py:164-166 | a raising file is never moved by the scan as written, at any point |
| ApprovalHandler.HandlerScanError | Silver-Tier/approval_handler.py:128-143 | within the model, the only exception the handler's scan as written ends with is the `ImportError` |
| ApprovalHandler.ApprovedPostBlocksScan | Silver-Tier/approval_handler.py:154-187 | an approved LinkedIn draft makes the scan raise the `ImportError`, stays in the approval folder unchanged, and makes the next scan, over any listing of the folder as left, raise again |
| AgentRunner.AnyInIff | Silver-Tier/agent_runner.py:293 | `any(kw in s for kw in keywords)` holds exactly when some keyword occurs |
| AgentRunner.EmailRequestIff | Silver-Tier/agent_runner.py:292-293 | an item is an e-mail request exactly when one of the three phrases occurs in its lowered text |
| AgentRunner.EmailRequestAnyCase | Silver-Tier/agent_runner.py:293 | one of the phrases in any casing makes the item an e-mail request |
| AgentRunner.EmailRequestIgnoresCase | Silver-Tier/agent_runner.py:293 | lowering the item first does not change the decision |
| AgentRunner.UrgentAnyCase | Silver-Tier/agent_runner.py:197-199 | "urgent" in any casing makes the reply urgent |
| AgentRunner.LowAnyCase | Silver-Tier/agent_runner.py:197-201 | "low" in any casing, with no "urgent", makes the reply low |
| AgentRunner.ClassifyIgnoresCase | Silver-Tier/agent_runner.py:197-201 | the urgency does not depend on the reply's casing |
| AgentRunner.CallQwenShape | Silver-Tier/agent_runner.py:122-128 | an answered call gives its trimmed, non-empty output; every other call gives a text starting `[ERROR] ` that carries the standard error or the exception text |
| AgentRunner.Stem | Silver-Tier/agent_runner.py:175 | `os.path.splitext(name)[0]` is a prefix cut at the last dot, or the whole name |
| AgentRunner.StemOfExtension | Silver-Tier/agent_runner.py:175 | for `base.ext` with a dot-free extension the stem is `base` |
| AgentRunner.StemKeepsName | Silver-Tier/agent_runner.py:175 | a name whose dots are all leading keeps its whole name as stem |
| AgentRunner.ResponseNameOfText | Silver-Tier/agent_runner.py:174-176 | the reply to `base.ext` is named `base_response_<timestamp>.md` |
| AgentRunner.Run | Silver-Tier/agent_runner.py:270-340 | the steps of `run`, on an item of `Inbox` or `Needs_Action`, end in the state and outcome the processing function gives |
| AgentRunner.RunSkipsBlank | Silver-Tier/agent_runner.py:279-282 | a readable item is skipped exactly when it is blank; a skipped or unreadable item leaves the vault unchanged |
| AgentRunner.RunDraftsEmail | Silver-Tier/agent_runner.py:298-328 | an e-mail request adds exactly the draft to the approval folder, with the extracted recipient and the reply, and keeps every other approval entry as it was; the item leaves its folder (`Inbox` or `Needs_Action`) for `Done` with its content, and the other of those folders is unchanged |
| AgentRunner.RunWritesResponse | Silver-Tier/agent_runner.py:330-337 | any other item adds exactly the reply file to `Needs_Action` (where an action file item is replaced by it), touches no draft, and moves the item to `Done` with its content |
| AgentRunner.ResponseNameDiffers | Silver-Tier/agent_runner.py:174-176 | the reply file is never named as the item it answers, so it cannot overwrite an action file in `Needs_Action` |
| AgentRunner.RunKeepsItem | Silver-Tier/agent_runner.py:258-263 | the item either stays in its folder (skipped, unreadable) or arrives in `Done` unchanged, with the other entries of `Done` kept |
| AddressPattern.MatchAtSound | Silver-Tier/agent_runner.py:301 | a match found at a start position really matches the pattern there |
| AddressPattern.MatchAtComplete | Silver-Tier/agent_runner.py:301 | every match at a start position ends no later than the one found, which is the backtracking matcher's longest |
| AddressPattern.SearchLeftmostLongest | Silver-Tier/agent_runner.py:301 | `re.search` finds the leftmost start at which the pattern matches and the longest match there; without one nothing matches anywhere |
| AddressPattern.ExtractAddressShape | Silver-Tier/agent_runner.py:301-302 | the recipient is the match, or `unknown@email.com` when there is none; it is at least five characters of `[\w.@-]` |
| DraftRoundTrip.ExtractedAddressIsText | Silver-Tier/agent_runner.py:301-302 | the recipient is always non-empty address text |
| DraftRoundTrip.EmailDraftRoundTrip | Silver-Tier/agent_runner.py:310-320 | the e-mail draft parses back to `SEND_EMAIL` with the recipient, the fixed subject and the stripped reply |
| DraftRoundTrip.ApprovedDraftExecutes | Silver-Tier/approval_handler.py:128-134 | approving that draft sends the e-mail with those fields |
| DraftRoundTrip.ApprovedDraftSends | Silver-Tier/agent_runner.py:298-322 | from an item of `Inbox` or `Needs_Action` to its approval: the draft saved by the runner, once approved, sends to the extracted recipient the stripped reply |
| LinkedInPoster.PosterReplyShape | Silver-Tier/linkedin_poster.py:37-39 | a completed call gives its stripped output, whatever the return code and standard error; a call that raised is always blocked; a blank reply is the empty post and is not blocked |
| LinkedInPoster.InsertByRecencySorted | Silver-Tier/linkedin_poster.py:45 | inserting into a newest-first list keeps it newest-first and adds exactly the entry |
| LinkedInPoster.ByRecencySorted | Silver-Tier/linkedin_poster.py:45 | the sort by modification time, newest first, is ordered and a permutation of the listing |
| LinkedInPoster.InsertAtTime | Silver-Tier/linkedin_poster.py:45 | inserting into a newest-first list places the entry after every entry with its time |
| LinkedInPoster.ByRecencyStable | Silver-Tier/linkedin_poster.py:45 | the sort is stable: the entries with one modification time come out in their listing order |
| LinkedInPoster.SelectedNewest | Silver-Tier/linkedin_poster.py:45 | `[:3]` keeps the three newest entries (all, when fewer), newest first, and every entry left out is no newer than any kept |
| LinkedInPoster.PathSuffixIs | Silver-Tier/linkedin_poster.py:48 | `Path.suffix` equals a dotted extension exactly when the name ends with it after at least one other character |
| LinkedInPoster.ActivitySuffixIff | Silver-Tier/linkedin_poster.py:48 | an entry is summarised exactly when its name ends in `.txt` or `.md` after some other character |
| LinkedInPoster.SummariesRaise | Silver-Tier/linkedin_poster.py:47-50 | gathering raises exactly when a selected entry with such a suffix is a directory |
| LinkedInPoster.SummariesSound | Silver-Tier/linkedin_poster.py:47-50 | every summary line is `- name: ` and the first 200 characters of a selected `.txt`/`.md` file |
| LinkedInPoster.SummariesComplete | Silver-Tier/linkedin_poster.py:47-50 | every selected `.txt`/`.md` file has its summary line |
| LinkedInPoster.RecentActivityShape | Silver-Tier/linkedin_poster.py:45-51 | at most three lines, joined by line breaks, or `No recent activity found.` when there are none; an error while reading passes through |
| LinkedInPoster.GetRecentActivity | Silver-Tier/linkedin_poster.py:42-51 | the loop computes the recent activity that function defines |
| LinkedInPoster.PostDraftRoundTrip | Silver-Tier/linkedin_poster.py:89-105 | the saved draft parses back to `LINKEDIN_POST` with the stripped post, blank posts included |
| LinkedInPoster.ApprovedPostDraft | Silver-Tier/approval_handler.py:136-139 | approving the saved draft raises `ImportError` as written; the corrected executor publishes the stripped post |
| LinkedInPoster.RunPoster | Silver-Tier/linkedin_poster.py:117-132 | the steps of `main` on the vault end in the state and outcome the poster function gives |
| LinkedInPoster.PosterGate | Silver-Tier/linkedin_poster.py:121-125 | a reply holding `[ERROR]` (so every raised call) saves nothing; a draft is saved exactly when the activity was read and the reply is not blocked |
| LinkedInPoster.PosterSavesDraft | Silver-Tier/linkedin_poster.py:83-108 | a saved run adds exactly `LINKEDIN_POST_<date>.md` to the approval folder with the rendered draft, and changes nothing else |
| LinkedInPoster.PosterBlankReplyApproved | Silver-Tier/linkedin_poster.py:117-132 | a blank reply gets through the gate and, approved, is read back as the empty post and published as `""` by the corrected handler |
| LinkedInPoster.PosterSavedFile | Silver-Tier/linkedin_poster.py:107-108 | after a saved run the draft file holds the rendered draft |
| LinkedInPoster.PosterDraftApproved | Silver-Tier/linkedin_poster.py:117-132 | from the model's reply to its approval: the saved draft, once approved, raises as written and, corrected, publishes the stripped reply |
| BaseWatcher.BatchAppend | Silver-Tier/base_watcher.py:85-88 | handling `a + b` is handling `a` and then, unless that raised, `b` from where `a` left off |
| BaseWatcher.BatchSkipsRest | Silver-Tier/base_watcher.py:85-96 | the first item whose creation raises ends the pass: its error is logged, the agents of the items before it were started, and no later item is touched |
| BaseWatcher.BatchStarted | Silver-Tier/base_watcher.py:85-88 | a pass without error starts one agent per item, one with an error fewer |
| BaseWatcher.BatchNeverFails | Silver-Tier/base_watcher.py:85-88 | when creating never raises, every item starts its agent and no error is logged |
| BaseWatcher.BatchOfNothing | Silver-Tier/base_watcher.py:83-90 | an empty poll changes nothing, and a pass that starts nothing without error had no items |
| BaseWatcher.BatchKeepsSeen | Silver-Tier/base_watcher.py:85-88 | when creation never forgets a processed item, neither does a pass |
| BaseWatcher.RoundsKeepPolling | Silver-Tier/base_watcher.py:78-98 | one pass per poll, each starting from the state the previous one left, whatever errors were logged |
| BaseWatcher.RoundsStep | Silver-Tier/base_watcher.py:78-98 | the passes from poll `i` on are pass `i` followed by the passes after it |
| BaseWatcher.Watcher.constructor | Silver-Tier/base_watcher.py:42-48 | the watcher keeps its name, interval and vault, with no agent started |
| BaseWatcher.Watcher.WriteActionFile | Silver-Tier/base_watcher.py:113-117 | writes the file into `Needs_Action` and returns its path |
| BaseWatcher.Watcher.WriteApprovalFile | Silver-Tier/base_watcher.py:119-124 | writes the file into `Needs_Action/APPROVAL_REQUIRED` and returns its path |
| BaseWatcher.Watcher.TriggerAgent | Silver-Tier/base_watcher.py:100-111 | records one agent start for the path, after those before |
| GmailWatcher.NewMessagesMembers | Silver-Tier/gmail_watcher.py:104 | an id is new exactly when it is listed and not yet processed |
| GmailWatcher.NewMessagesAppend | Silver-Tier/gmail_watcher.py:104 | the filter keeps the listing's order |
| GmailWatcher.NewMessagesAllNew | Silver-Tier/gmail_watcher.py:104 | a listing of unprocessed ids passes unchanged |
| GmailWatcher.NewMessagesAllSeen | Silver-Tier/gmail_watcher.py:104 | a listing of processed ids yields nothing |
| GmailWatcher.ProcessedNotPolled | Silver-Tier/gmail_watcher.py:91-110 | a processed id is never returned by a poll, with or without a service, whether or not the listing failed |
| GmailWatcher.HeaderMapLastWins | Silver-Tier/gmail_watcher.py:122-124 | the header dictionary has exactly the listed names, each with the value of its last occurrence |
| GmailWatcher.BuildHeaders | Silver-Tier/gmail_watcher.py:122-124 | the loop builds that dictionary |
| GmailWatcher.HeaderDefault | Silver-Tier/gmail_watcher.py:126-128 | an absent header gives its default, a present one the value of its last occurrence |
| GmailWatcher.BodyOfFirstPicked | Silver-Tier/gmail_watcher.py:187-198 | the first `text/plain` part with data (or malformed part) decides the body: its decoded text, or `""` when it is malformed or does not decode |
| GmailWatcher.BodyOfNonePicked | Silver-Tier/gmail_watcher.py:190-196 | without such a part the body is `""` |
| GmailWatcher.ExtractBody | Silver-Tier/gmail_watcher.py:187-198 | the loop with its early returns computes that body |
| GmailWatcher.RecordedShape | Silver-Tier/gmail_watcher.py:168-181 | after the write, the id is recorded and the path returned exactly when marking read succeeded |
| GmailWatcher.CreateMarksAfterWrite | Silver-Tier/gmail_watcher.py:112-185 | the id is recorded exactly when the fetch and the mark-read both succeed, which is exactly when a path is returned; a failed fetch or a missing service changes nothing; a fetched message is written as its action file even when marking read then raises |
| GmailWatcher.CreateKeepsSeen | Silver-Tier/gmail_watcher.py:178 | creating an action file never forgets a processed id |
| GmailWatcher.QuietPass | Silver-Tier/gmail_watcher.py:91-110 | no service, a failed listing or nothing new: the pass writes nothing, starts nothing and logs no error |
| GmailWatcher.PassRemembers | Silver-Tier/gmail_watcher.py:104 | after a pass, every id processed before is still processed and is not polled again |
| GmailWatcher.GmailWatcher.constructor | Silver-Tier/gmail_watcher.py:33-36 | a watcher named `GmailWatcher` polling every 120 seconds, with the service and the loaded ids |
| GmailWatcher.GmailWatcher.CreateActionFile | Silver-Tier/gmail_watcher.py:112-185 | the method changes the vault and the processed ids as creating the action file does, and returns its result |
| GmailWatcher.GmailWatcher.Poll | Silver-Tier/base_watcher.py:79-96 | one pass of `run` with the Gmail poll and creation, ending in the pass's state, with one agent started per created file |
| GmailWatcher.GmailWatcher.Run | Silver-Tier/base_watcher.py:78-98 | the passes of `run` over a sequence of polls, with every created file's agent started in order |
| WhatsAppWatcher.FirstKeywordIsFirst | Silver-Tier/whatsapp_watcher.py:97-108 | a keyword is found exactly when one occurs, and the one found is the first in list order that occurs |
| WhatsAppWatcher.FoundInShape | Silver-Tier/whatsapp_watcher.py:92-108 | a row yields at most one message, exactly when a keyword occurs and its fingerprint is new; the message carries the first keyword, the first line as sender, `sender:` plus 50 lowered characters as fingerprint, and at most 500 leading characters of the text |
| WhatsAppWatcher.ScanAppend | Silver-Tier/whatsapp_watcher.py:92 | the rows are scanned in order, each on its own |
| WhatsAppWatcher.ScanFromRows | Silver-Tier/whatsapp_watcher.py:92-106 | every message found comes from one row, at most one per row, none with a processed fingerprint, each text at most 500 characters |
| WhatsAppWatcher.SafeSenderShape | Silver-Tier/whatsapp_watcher.py:120 | the sender in the file name is at most 20 characters and holds no space, `/`, `\` or `:` |
| WhatsAppWatcher.MessageTextQuotes | Silver-Tier/whatsapp_watcher.py:122-150 | the action file quotes the sender, the keyword, the time and the message text |
| WhatsAppWatcher.HandledNotRescanned | Silver-Tier/whatsapp_watcher.py:155-156 | once a message is handled its fingerprint is recorded, and no later scan reports a message with it |
| WhatsAppWatcher.PassHandlesAll | Silver-Tier/whatsapp_watcher.py:117-158 | creation never raises here, so every message found gets its file and its agent and no error is logged |
| WhatsAppWatcher.WhatsAppWatcher.constructor | Silver-Tier/whatsapp_watcher.py:25-28 | a watcher named `WhatsAppWatcher` polling every 30 seconds, with the loaded fingerprints |
| WhatsAppWatcher.WhatsAppWatcher.ScanRow | Silver-Tier/whatsapp_watcher.py:93-108 | the keyword loop of one row, with its `break`, yields that row's message |
| WhatsAppWatcher.WhatsAppWatcher.CheckForUpdates | Silver-Tier/whatsapp_watcher.py:43-115 | the scan of all rows, or nothing when the browser part failed |
| WhatsAppWatcher.WhatsAppWatcher.CreateActionFile | Silver-Tier/whatsapp_watcher.py:117-158 | writes `WHATSAPP_<safe sender>_<HHMMSS>.md` into `Needs_Action`, then records the fingerprint |
| WhatsAppWatcher.WhatsAppWatcher.Poll | Silver-Tier/base_watcher.py:79-96 | one pass of `run` with the WhatsApp scan and creation, with one agent started per message found |
| WhatsAppWatcher.WhatsAppWatcher.Run | Silver-Tier/base_watcher.py:78-98 | the passes of `run` over a sequence of browser readings, every created file's agent started in order |

## Left out

- Logging, console output and `time.sleep`: the polling intervals are kept as
  constants, but the model has no time between passes.
- The endless loops (`while True` in `BaseWatcher.run` and in the approval
  handler's `main`). They are modelled as a finite sequence of passes or scans.
  `KeyboardInterrupt` is not modelled.
- Concurrency between the watchers, the runner processes they start and the
  handler: each script is modelled on its own view of the vault.
- `subprocess.Popen` in `trigger_agent`: an agent start is recorded, and one
  that fails to spawn is recorded the same way, since the source only logs that
  failure.
- `call_qwen_api` and `USE_API`. The flag is `False`, so only the command-line
  call is modelled.
- `build_prompt` and `generate_linkedin_post`: the prompt only feeds the model
  call, which is an input. The hand-book and the skill files are read only for
  the prompt.
- AgentRunner.Run: the item's content is the text `read_file` returns after its
  encoding fallback (utf-8, utf-16, utf-8-sig, then latin-1); that decoding is
  not modelled, and the stored content stands for the decoded text that
  decides the blank check, the e-mail test and the recipient. A missing item
  or a directory raises in the source and is the `Unreadable` outcome here,
  with the vault unchanged. A missing hand-book or skill file also makes
  `build_prompt` raise before anything is written or moved; the model does not
  include those two files, so it does not show that raise.
- `update_dashboard`: only its urgency rule (`Classify`) is modelled, not the
  counts or the rewritten `Dashboard.md`.
- Gmail OAuth (`_authenticate`): it is reduced to a service that is present or
  absent.
- The processed-id and fingerprint JSON files: loading is a constructor
  argument and saving is not modelled.
- The Gmail query (`is:unread is:important`, `maxResults=10`): the listing
  result is an input.
- Base64 decoding of the body: an input function, where `None` stands for a
  decode that raised.
- A message without `payload` (a `KeyError`) is covered by the fetch result
  that raised.
- The browser part of the WhatsApp watcher: the chat rows after the page's own
  filter (`text.length > 3`) are the input, and a browser failure is an absent
  input. The `playwright` import check is part of that failure.
- `os.makedirs` of the session folder, the vault's `Logs` folder and the log
  file names.
- The clock: every `datetime.now()` in one call (time stamp, file name) is one
  reading, passed in as a parameter.
- `Path.iterdir` order: the listing is an input, taken to be duplicate-free.
- `shutil.move` onto an existing name overwrites it. Moving into an existing
  directory is not modelled.
- Unicode: `lower`/`upper` and `\w` are their ASCII parts. There is no
  normalisation or encoding, and `errors="replace"` is not modelled.
- The LinkedIn publisher itself (`post_via_playwright` does not exist in the
  source): a LinkedIn call is recorded with the answer given as an input.
- ApprovalHandler.ScanOutcome, ApprovalHandler.ScanCalls: these are stated for
  an executor that always answers (the corrected handler). For the scan as
  written they hold up to the first raising file (`ScanStopsAtRaise`) or for
  the whole scan when none raises (`ScanAsWrittenOk`).
- ApprovalHandler.ScanClears: stated for an executor that always answers. As
  written, an approved LinkedIn draft is never cleared
  (`ApprovedPostBlocksScan`), nor is any file listed after it in that scan.
- ApprovalHandler.RescanNoOp: stated for an executor that always answers. As
  written, a rescan after a raise raises again (`ApprovedPostBlocksScan`).
- ApprovalHandler.HandlerScanError: states the `ImportError` as the only
  exception within the model. In the source, `read_text(encoding="utf-8")` in
  `parse_action_file` raises `UnicodeDecodeError` on an approved file that is
  not valid UTF-8, and `shutil.move` in `archive_file` can raise `OSError`;
  either would leave the scan the same way, and neither is modelled, since
  file contents are text and a move always succeeds here.
- WhatsAppWatcher.CreateActionFile: a write or a `_save_processed` that raises
  (a full disk, a missing credentials folder) is not modelled; creation never
  raises.
- GmailWatcher.CreateActionFile: the write is modelled as always succeeding;
  only the service, the fetch and the mark-read may raise.

## Findings

| source | as written | input that shows it | evidently intended | confidence | as-written member | corrected member |
|---|---|---|---|---|---|---|
| Silver-Tier/approval_handler.py:138 | `execute_action` imports `post_via_playwright` from `linkedin_poster`, which defines no such function, so every approved LinkedIn draft raises `ImportError`; the exception leaves `scan_for_decisions`, the file is neither posted nor archived, and every later scan raises on it again | the draft `save_for_approval` writes for any post, a blank one included, renamed to `APPROVED_LINKEDIN_POST_<date>.md` | publish the post text and archive the file as `EXECUTED_` or `FAILED_` by the publisher's answer | not executed | ApprovalHandler.ApprovedPostRaisesAsWritten, ApprovalHandler.ApprovedPostBlocksScan | ApprovalHandler.ExecuteAction |
