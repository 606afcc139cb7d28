// The WhatsApp adapter (`whatsapp_watcher.py`): the keyword scan over the
// chat rows the browser shows (the browser itself is left out), the
// fingerprints that keep a message from being reported twice, and the
// action file written for a message.

module WhatsAppWatcher {
  import opened Wrappers
  import opened Text
  import opened Vault
  import opened BaseWatcher

  /** The words that make a chat worth an action file, in the order they are tried. */
  const TRIGGER_KEYWORDS: seq<string> := ["urgent", "asap", "invoice", "payment", "help", "deadline", "meeting"]

  /** A message found by a scan: its sender, its text cut to 500 characters, the keyword and the fingerprint. */
  datatype Found = Found(sender: string, text: string, keyword: string, fingerprint: string)

  const UNKNOWN_SENDER := "Unknown"
  const TEXT_LIMIT := 500
  const FINGERPRINT_LIMIT := 50

  // ---------------------------------------------------------------------------
  // check_for_updates
  // ---------------------------------------------------------------------------

  /** The first line of a chat row: `text.split("\n")[0]` (the split is never empty). */
  function Sender(text: string): string {
    var lines := Split(text, '\n');
    if |lines| > 0 then lines[0] else UNKNOWN_SENDER
  }

  /** `f"{sender}:{text_lower[:50]}"` */
  function Fingerprint(text: string): string {
    Sender(text) + ":" + Take(Lower(text), FINGERPRINT_LIMIT)
  }

  /** The first keyword of `kws`, in list order, that occurs in `s`. */
  function FirstKeyword(s: string, kws: seq<string>): Option<string>
    decreases |kws|
  {
    if kws == [] then None
    else if Contains(s, kws[0]) then Some(kws[0])
    else FirstKeyword(s, kws[1..])
  }

  /**
   * A keyword is found exactly when one of the list occurs, and the one found
   * occurs and is the first in list order that does.
   */
  lemma {:induction false} FirstKeywordIsFirst(s: string, kws: seq<string>)
    ensures FirstKeyword(s, kws).Some? <==> exists j :: 0 <= j < |kws| && Contains(s, kws[j])
    ensures FirstKeyword(s, kws).Some? ==>
      exists j :: 0 <= j < |kws| && kws[j] == FirstKeyword(s, kws).value && Contains(s, kws[j])
                  && forall i :: 0 <= i < j ==> !Contains(s, kws[i])
    decreases |kws|
  {
    if kws != [] && !Contains(s, kws[0]) {
      FirstKeywordIsFirst(s, kws[1..]);
      if FirstKeyword(s, kws).Some? {
        var j :| 0 <= j < |kws[1..]| && kws[1..][j] == FirstKeyword(s, kws).value && Contains(s, kws[1..][j])
                 && forall i :: 0 <= i < j ==> !Contains(s, kws[1..][i]);
        assert kws[j + 1] == kws[1..][j];
        assert forall i :: 0 <= i < j + 1 ==> !Contains(s, kws[i]) by {
          forall i | 0 <= i < j + 1
            ensures !Contains(s, kws[i])
          {
            if i > 0 {
              assert kws[i] == kws[1..][i - 1];
            }
          }
        }
      }
      if exists j :: 0 <= j < |kws| && Contains(s, kws[j]) {
        var j :| 0 <= j < |kws| && Contains(s, kws[j]);
        assert j > 0 && kws[1..][j - 1] == kws[j];
      }
    }
  }

  /**
   * What one chat row yields: nothing without a keyword; nothing when the
   * first keyword's message was already handled (the later keywords are not
   * tried); otherwise one message.
   */
  function FoundIn(text: string, seen: set<string>, kws: seq<string>): seq<Found> {
    match FirstKeyword(Lower(text), kws)
    case None => []
    case Some(kw) =>
      var fp := Fingerprint(text);
      if fp in seen then [] else [Found(Sender(text), Take(text, TEXT_LIMIT), kw, fp)]
  }

  /**
   * A row yields at most one message; it yields one exactly when a keyword
   * occurs in the lowered text and the fingerprint is new; and that message
   * carries the first keyword, the first line as sender, the fingerprint,
   * and at most 500 leading characters of the text.
   */
  lemma FoundInShape(text: string, seen: set<string>, kws: seq<string>)
    ensures |FoundIn(text, seen, kws)| <= 1
    ensures |FoundIn(text, seen, kws)| == 1 <==> FirstKeyword(Lower(text), kws).Some? && Fingerprint(text) !in seen
    ensures forall f :: f in FoundIn(text, seen, kws) ==>
      && Some(f.keyword) == FirstKeyword(Lower(text), kws)
      && f.sender == Sender(text)
      && f.fingerprint == Sender(text) + ":" + Take(Lower(text), FINGERPRINT_LIMIT)
      && f.fingerprint !in seen
      && |f.text| <= TEXT_LIMIT && StartsWith(text, f.text)
  {
  }

  /** The messages found in the chat rows, row by row. */
  function Scan(chats: seq<string>, seen: set<string>, kws: seq<string>): seq<Found>
    decreases |chats|
  {
    if chats == [] then [] else Scan(chats[..|chats| - 1], seen, kws) + FoundIn(chats[|chats| - 1], seen, kws)
  }

  /** Scanning keeps the order of the rows: it scans each part of the rows separately. */
  lemma {:induction false} ScanAppend(a: seq<string>, b: seq<string>, seen: set<string>, kws: seq<string>)
    ensures Scan(a + b, seen, kws) == Scan(a, seen, kws) + Scan(b, seen, kws)
    decreases |b|
  {
    if b == [] {
      assert a + b == a;
    } else {
      var c := a + b;
      assert c[..|c| - 1] == a + b[..|b| - 1];
      assert c[|c| - 1] == b[|b| - 1];
      ScanAppend(a, b[..|b| - 1], seen, kws);
    }
  }

  /** Scanning one more row adds what that row yields. */
  lemma ScanStep(chats: seq<string>, i: nat, seen: set<string>, kws: seq<string>)
    requires i < |chats|
    ensures Scan(chats[..i + 1], seen, kws) == Scan(chats[..i], seen, kws) + FoundIn(chats[i], seen, kws)
  {
    var c := chats[..i + 1];
    assert c[..|c| - 1] == chats[..i];
    assert c[|c| - 1] == chats[i];
  }

  /** Every message a scan finds comes from one row, and none has a fingerprint already seen. */
  lemma {:induction false} ScanFromRows(chats: seq<string>, seen: set<string>, kws: seq<string>)
    ensures |Scan(chats, seen, kws)| <= |chats|
    ensures forall f :: f in Scan(chats, seen, kws) ==> exists i :: 0 <= i < |chats| && f in FoundIn(chats[i], seen, kws)
    ensures forall f :: f in Scan(chats, seen, kws) ==> f.fingerprint !in seen && |f.text| <= TEXT_LIMIT
    decreases |chats|
  {
    if chats != [] {
      var init := chats[..|chats| - 1];
      var last := chats[|chats| - 1];
      ScanFromRows(init, seen, kws);
      FoundInShape(last, seen, kws);
      forall f | f in Scan(chats, seen, kws)
        ensures exists i :: 0 <= i < |chats| && f in FoundIn(chats[i], seen, kws)
      {
        if f in Scan(init, seen, kws) {
          var i :| 0 <= i < |init| && f in FoundIn(init[i], seen, kws);
          assert chats[i] == init[i];
        } else {
          assert f in FoundIn(chats[|chats| - 1], seen, kws);
        }
      }
      forall f | f in Scan(chats, seen, kws)
        ensures f.fingerprint !in seen && |f.text| <= TEXT_LIMIT
      {
        if f !in Scan(init, seen, kws) {
          assert f in FoundIn(last, seen, kws);
        }
      }
    }
  }

  /** `check_for_updates`: nothing when the browser part failed (`chats` absent), else the scan of the rows. */
  function Updates(chats: Option<seq<string>>, seen: set<string>): seq<Found> {
    if chats.None? then [] else Scan(chats.value, seen, TRIGGER_KEYWORDS)
  }

  // ---------------------------------------------------------------------------
  // create_action_file
  // ---------------------------------------------------------------------------

  /** The replacements `create_action_file` makes in the sender, in order. */
  const SENDER_REPLACEMENTS: seq<(string, string)> := [(" ", "_"), ("/", "-"), ("\\", "-"), (":", "")]

  /** `s.replace(a1, b1).replace(a2, b2)...` for the pairs in order. */
  function ReplaceEach(s: string, pairs: seq<(string, string)>): string
    requires forall k :: 0 <= k < |pairs| ==> pairs[k].0 != []
    decreases |pairs|
  {
    if pairs == [] then s else ReplaceEach(ReplaceAll(s, pairs[0].0, pairs[0].1), pairs[1..])
  }

  /** The sender with spaces, slashes, backslashes and colons made safe for a file name, cut to 20 characters. */
  function SafeSender(sender: string): string {
    Take(ReplaceEach(sender, SENDER_REPLACEMENTS), 20)
  }

  /** A character a text does not hold is not in a prefix of it. */
  lemma TakeLacks(s: string, n: nat, d: char)
    requires d !in s
    ensures d !in Take(s, n)
  {
    var r := Take(s, n);
    assert r == s[..|r|];
  }

  /**
   * After the replacements, a character that one pair removes is gone for
   * good when no later replacement puts it back.
   */
  lemma {:induction false} ReplaceEachRemoves(s: string, pairs: seq<(string, string)>, d: char)
    requires forall k :: 0 <= k < |pairs| ==> pairs[k].0 != []
    requires d !in s || exists k :: 0 <= k < |pairs| && pairs[k].0 == [d]
    requires forall k :: 0 <= k < |pairs| ==> d !in pairs[k].1
    ensures d !in ReplaceEach(s, pairs)
    decreases |pairs|
  {
    if pairs != [] {
      var s1 := ReplaceAll(s, pairs[0].0, pairs[0].1);
      assert d !in pairs[0].1;
      if pairs[0].0 == [d] {
        ReplaceCharRemoves(s, d, pairs[0].1);
      } else {
        ReplaceAllChars(s, pairs[0].0, pairs[0].1, d);
      }
      assert d !in s1 || exists k :: 0 <= k < |pairs[1..]| && pairs[1..][k].0 == [d] by {
        if d in s1 {
          var k :| 0 <= k < |pairs| && pairs[k].0 == [d];
          assert k > 0 && pairs[1..][k - 1] == pairs[k];
        }
      }
      assert forall k :: 0 <= k < |pairs[1..]| ==> d !in pairs[1..][k].1 by {
        forall k | 0 <= k < |pairs[1..]|
          ensures d !in pairs[1..][k].1
        {
          assert pairs[1..][k] == pairs[k + 1];
        }
      }
      ReplaceEachRemoves(s1, pairs[1..], d);
    }
  }

  /** The safe sender is at most 20 characters and holds no space, `/`, `\` or `:`. */
  lemma SafeSenderShape(sender: string)
    ensures var r := SafeSender(sender);
      |r| <= 20 && ' ' !in r && '/' !in r && '\\' !in r && ':' !in r
  {
    var pairs := SENDER_REPLACEMENTS;
    var s4 := ReplaceEach(sender, pairs);
    assert pairs[0].0 == [' '] && pairs[1].0 == ['/'] && pairs[2].0 == ['\\'] && pairs[3].0 == [':'];
    ReplaceEachRemoves(sender, pairs, ' ');
    ReplaceEachRemoves(sender, pairs, '/');
    ReplaceEachRemoves(sender, pairs, '\\');
    ReplaceEachRemoves(sender, pairs, ':');
    TakeLacks(s4, 20, ' ');
    TakeLacks(s4, 20, '/');
    TakeLacks(s4, 20, '\\');
    TakeLacks(s4, 20, ':');
  }

  // The fixed texts of the action file, between its fields.
  const FRONT_FROM := "---\ntype: whatsapp\nfrom: "
  const FRONT_KEYWORD := "\nkeyword: "
  const FRONT_RECEIVED := "\nreceived: "
  const FRONT_END := "\nstatus: pending\n---\n\n"
  const TITLE := "# WhatsApp Message from "
  const FROM_LINE := "\n\n**From:** "
  const KEYWORD_LINE := "\n**Keyword Triggered:** "
  const RECEIVED_LINE := "\n**Received:** "
  const CONTENT_HEADING := "\n\n---\n\n## Message Content\n"
  const SUGGESTIONS := "\n\n---\n\n## Suggested Actions\n- [ ] Reply to sender\n- [ ] Escalate if payment/invoice related\n- [ ] Archive after handling\n\n"
  const PROCESSED_BY := "---\nProcessed by WhatsApp Watcher at "
  const CLOSING := "\n"

  /** The action file for a found message, received at `timestamp`. */
  function MessageText(m: Found, timestamp: string): string {
    Concat([FRONT_FROM, m.sender, FRONT_KEYWORD, m.keyword, FRONT_RECEIVED, timestamp, FRONT_END,
            TITLE, m.sender, FROM_LINE, m.sender, KEYWORD_LINE, m.keyword, RECEIVED_LINE, timestamp,
            CONTENT_HEADING, m.text, SUGGESTIONS, PROCESSED_BY, timestamp, CLOSING])
  }

  /** The action file quotes the sender, the keyword, the receipt time and the (cut) message text. */
  lemma MessageTextQuotes(m: Found, timestamp: string)
    ensures Contains(MessageText(m, timestamp), m.sender)
    ensures Contains(MessageText(m, timestamp), m.keyword)
    ensures Contains(MessageText(m, timestamp), timestamp)
    ensures Contains(MessageText(m, timestamp), m.text)
  {
    var pieces := [FRONT_FROM, m.sender, FRONT_KEYWORD, m.keyword, FRONT_RECEIVED, timestamp, FRONT_END,
                   TITLE, m.sender, FROM_LINE, m.sender, KEYWORD_LINE, m.keyword, RECEIVED_LINE, timestamp,
                   CONTENT_HEADING, m.text, SUGGESTIONS, PROCESSED_BY, timestamp, CLOSING];
    ConcatContains(pieces, 1);
    ConcatContains(pieces, 3);
    ConcatContains(pieces, 5);
    ConcatContains(pieces, 16);
  }

  /** `WHATSAPP_<safe sender>_<HHMMSS>.md` */
  function MessageFileName(sender: string, hhmmss: string): string {
    "WHATSAPP_" + SafeSender(sender) + "_" + hhmmss + ".md"
  }

  /** `create_action_file` on the watcher's state: the file is written, then the fingerprint recorded. */
  function Create(s: WatcherState, m: Found, now: Stamp): Handled {
    var name := MessageFileName(m.sender, now.hhmmss);
    Handled(WatcherState(Write(s.tree, NeedsAction, name, MessageText(m, now.readable), now.seconds), s.seen + {m.fingerprint}),
            Ok(PathIn(NeedsAction, name)))
  }

  /**
   * Once a message is handled, no later scan returns a message with its
   * fingerprint, whatever the rows then show.
   */
  lemma HandledNotRescanned(s: WatcherState, m: Found, now: Stamp, chats: Option<seq<string>>)
    ensures m.fingerprint in Create(s, m, now).state.seen
    ensures forall f :: f in Updates(chats, Create(s, m, now).state.seen) ==> f.fingerprint != m.fingerprint
  {
    if chats.Some? {
      ScanFromRows(chats.value, Create(s, m, now).state.seen, TRIGGER_KEYWORDS);
    }
  }

  /** `create_action_file` as the step the loop of `run` takes. */
  function Handler(): (WatcherState, Found, Stamp) -> Handled {
    (s: WatcherState, m: Found, now: Stamp) => Create(s, m, now)
  }

  /** `check_for_updates` as the poll the loop of `run` makes. */
  function Poller(): (WatcherState, Option<seq<string>>) -> seq<Found> {
    (s: WatcherState, chats: Option<seq<string>>) => Updates(chats, s.seen)
  }

  /**
   * `create_action_file` never raises here, so every message a pass finds
   * gets its action file and its agent run, and no error is logged.
   */
  lemma PassHandlesAll(s: WatcherState, chats: Option<seq<string>>, clock: nat -> Stamp)
    ensures Round(s, chats, Poller(), Handler(), clock).error.None?
    ensures |Round(s, chats, Poller(), Handler(), clock).started| == |Updates(chats, s.seen)|
  {
    assert forall s': WatcherState, x: Found, now: Stamp :: Handler()(s', x, now).created.Ok? by {
      forall s': WatcherState, x: Found, now: Stamp
        ensures Handler()(s', x, now).created.Ok?
      {
        assert Handler()(s', x, now) == Create(s', x, now);
      }
    }
    BatchNeverFails(s, Updates(chats, s.seen), Handler(), clock, 0);
  }

  // ---------------------------------------------------------------------------
  // The watcher
  // ---------------------------------------------------------------------------

  class WhatsAppWatcher {
    const base: Watcher
    var processedMessages: set<string>

    /**
     * `WhatsAppWatcher.__init__`: a base watcher named `WhatsAppWatcher`
     * polling every 30 seconds, and the fingerprints loaded from disk.
     */
    constructor(vault: Store, loaded: set<string>)
      ensures base.name == "WhatsAppWatcher" && base.checkInterval == 30 && base.vault == vault && base.triggered == []
      ensures processedMessages == loaded
      ensures fresh(base)
    {
      base := new Watcher("WhatsAppWatcher", 30, vault);
      processedMessages := loaded;
    }

    function State(): WatcherState
      reads this, base.vault
    {
      WatcherState(base.vault.tree, processedMessages)
    }

    /**
     * The keyword loop of `check_for_updates` for one chat row: the first
     * keyword that occurs decides, and the loop stops there.
     */
    method ScanRow(text: string) returns (found: seq<Found>)
      ensures found == FoundIn(text, processedMessages, TRIGGER_KEYWORDS)
    {
      var keywords := TRIGGER_KEYWORDS;
      var lowered := Lower(text);
      var sender := Sender(text);
      found := [];
      var j := 0;
      while j < |keywords|
        invariant 0 <= j <= |keywords|
        invariant FirstKeyword(lowered, keywords) == FirstKeyword(lowered, keywords[j..])
      {
        assert keywords[j..][0] == keywords[j] && keywords[j..][1..] == keywords[j + 1..];
        var kw := keywords[j];
        if Contains(lowered, kw) {
          var fingerprint := sender + ":" + Take(lowered, FINGERPRINT_LIMIT);
          if fingerprint !in processedMessages {
            found := [Found(sender, Take(text, TEXT_LIMIT), kw, fingerprint)];
          }
          return;
        }
        j := j + 1;
      }
    }

    /** `check_for_updates` on the chat rows the browser returned (absent when it failed). */
    method CheckForUpdates(chats: Option<seq<string>>) returns (found: seq<Found>)
      ensures found == Updates(chats, processedMessages)
    {
      if chats.None? {
        return [];
      }
      var texts := chats.value;
      found := [];
      var i := 0;
      while i < |texts|
        invariant 0 <= i <= |texts|
        invariant found == Scan(texts[..i], processedMessages, TRIGGER_KEYWORDS)
      {
        var row := ScanRow(texts[i]);
        ScanStep(texts, i, processedMessages, TRIGGER_KEYWORDS);
        found := found + row;
        i := i + 1;
      }
      assert texts[..|texts|] == texts;
    }

    /** `create_action_file(message)`, with `now` the clock reading it formats. */
    method CreateActionFile(m: Found, now: Stamp) returns (created: Result<Path>)
      modifies this, base.vault
      ensures Handled(State(), created) == Handler()(old(State()), m, now)
    {
      ghost var s := State();
      assert Handler()(s, m, now) == Create(s, m, now);
      var safeSender := SafeSender(m.sender);
      var content := MessageText(m, now.readable);
      var filename := "WHATSAPP_" + safeSender + "_" + now.hhmmss + ".md";
      var path := base.WriteActionFile(filename, content, now.seconds);
      processedMessages := processedMessages + {m.fingerprint};
      return Ok(path);
    }

    /** One pass of `run`'s loop: scan, then create an action file and trigger the agent per found message. */
    method Poll(chats: Option<seq<string>>, clock: nat -> Stamp) returns (pass: Pass)
      modifies this, base, base.vault
      ensures pass == Round(old(State()), chats, Poller(), Handler(), clock)
      ensures State() == pass.state
      ensures base.triggered == old(base.triggered) + pass.started
    {
      var items := CheckForUpdates(chats);
      ghost var s0 := State();
      ghost var s := s0;
      var started: seq<Path> := [];
      var i := 0;
      assert items[i..] == items && [] + Batch(s0, items, Handler(), clock, 0).started == Batch(s0, items, Handler(), clock, 0).started;
      while i < |items|
        invariant 0 <= i <= |items|
        invariant s == State()
        invariant Batch(s0, items, Handler(), clock, 0) == After(started, Batch(s, items[i..], Handler(), clock, i))
        invariant base.triggered == old(base.triggered) + started
      {
        var created := CreateActionFile(items[i], clock(i));
        BatchAdvance(s0, items, i, started, s, Handled(State(), created), Handler(), clock);
        s := State();
        base.TriggerAgent(created.value);
        SeqAppendAssoc(old(base.triggered), started, [created.value]);
        started := started + [created.value];
        i := i + 1;
      }
      return Pass(State(), started, None);
    }

    /** `run`: one pass per input until the inputs run out; errors are logged and polling goes on. */
    method Run(inputs: seq<Option<seq<string>>>, clock: (nat, nat) -> Stamp) returns (passes: seq<Pass>)
      modifies this, base, base.vault
      ensures passes == Rounds(old(State()), inputs, Poller(), Handler(), clock, 0)
      ensures base.triggered == old(base.triggered) + StartedIn(passes)
    {
      ghost var s0 := State();
      ghost var s := s0;
      passes := [];
      var i := 0;
      while i < |inputs|
        invariant 0 <= i <= |inputs|
        invariant s == State()
        invariant Rounds(s0, inputs, Poller(), Handler(), clock, 0) == passes + Rounds(s, inputs[i..], Poller(), Handler(), clock, i)
        invariant base.triggered == old(base.triggered) + StartedIn(passes)
      {
        var pass := Poll(inputs[i], ClockOf(clock, i));
        RoundsAdvance(s0, inputs, i, passes, s, pass, Poller(), Handler(), clock);
        StartedInAppend(passes, pass);
        SeqAppendAssoc(old(base.triggered), StartedIn(passes), pass.started);
        passes := passes + [pass];
        s := pass.state;
        i := i + 1;
      }
    }
  }
}
