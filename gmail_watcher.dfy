// The Gmail adapter (`gmail_watcher.py`): which listed messages are new,
// the header defaults, the body chosen from the payload, the action file
// written for a message, and the id recorded only once that file is written
// and the message is marked read.

module GmailWatcher {
  import opened Wrappers
  import opened Text
  import opened Vault
  import opened BaseWatcher

  /** One entry of `payload.headers`. */
  datatype Header = Header(name: string, value: string)

  /**
   * One entry of `payload.parts`: its `mimeType` and its base64 `body.data`
   * (`""` when absent), or a part lacking `mimeType` or `body`, on which the
   * lookup raises.
   */
  datatype Part = Part(mimeType: string, data: string) | MalformedPart

  /** A message as `messages().get(format="full")` returns it. */
  datatype Message = Message(headers: seq<Header>, snippet: string, parts: seq<Part>)

  /**
   * The authenticated Gmail service: fetching a message, marking it read
   * (either may raise), and decoding base64 body data as UTF-8 (which may
   * fail).
   */
  datatype Api = Api(fetch: string -> Result<Message>, markRead: string -> Result<()>, decode: string -> Option<string>)

  // ---------------------------------------------------------------------------
  // check_for_updates
  // ---------------------------------------------------------------------------

  /** `[m for m in messages if m["id"] not in processed_ids]` */
  function NewMessages(ids: seq<string>, seen: set<string>): seq<string>
    decreases |ids|
  {
    if ids == [] then []
    else (if ids[0] in seen then [] else [ids[0]]) + NewMessages(ids[1..], seen)
  }

  /** The new messages are exactly the listed ones not yet processed. */
  lemma {:induction false} NewMessagesMembers(ids: seq<string>, seen: set<string>)
    ensures forall x :: x in NewMessages(ids, seen) <==> x in ids && x !in seen
    decreases |ids|
  {
    if ids != [] {
      NewMessagesMembers(ids[1..], seen);
      assert ids == [ids[0]] + ids[1..];
    }
  }

  /** Filtering keeps the listing's order: it filters each part of a listing separately. */
  lemma {:induction false} NewMessagesAppend(a: seq<string>, b: seq<string>, seen: set<string>)
    ensures NewMessages(a + b, seen) == NewMessages(a, seen) + NewMessages(b, seen)
    decreases |a|
  {
    if a == [] {
      assert a + b == b;
    } else {
      assert (a + b)[0] == a[0];
      assert (a + b)[1..] == a[1..] + b;
      NewMessagesAppend(a[1..], b, seen);
    }
  }

  /** A listing with nothing processed comes back whole and in order. */
  lemma {:induction false} NewMessagesAllNew(ids: seq<string>, seen: set<string>)
    requires forall i :: 0 <= i < |ids| ==> ids[i] !in seen
    ensures NewMessages(ids, seen) == ids
    decreases |ids|
  {
    if ids != [] {
      NewMessagesAllNew(ids[1..], seen);
    }
  }

  /** A listing of processed messages only gives nothing new. */
  lemma {:induction false} NewMessagesAllSeen(ids: seq<string>, seen: set<string>)
    requires forall i :: 0 <= i < |ids| ==> ids[i] in seen
    ensures NewMessages(ids, seen) == []
    decreases |ids|
  {
    if ids != [] {
      NewMessagesAllSeen(ids[1..], seen);
    }
  }

  /**
   * `check_for_updates`: nothing without a service or when listing raises
   * (`listing` is the result of `messages().list(...)`); otherwise the new
   * messages.
   */
  function Updates(service: Option<Api>, listing: Result<seq<string>>, seen: set<string>): seq<string> {
    if service.None? || listing.Raised? then [] else NewMessages(listing.value, seen)
  }

  /** An id already processed is never returned by a poll. */
  lemma ProcessedNotPolled(service: Option<Api>, listing: Result<seq<string>>, seen: set<string>, id: string)
    requires id in seen
    ensures id !in Updates(service, listing, seen)
  {
    if service.Some? && listing.Ok? {
      NewMessagesMembers(listing.value, seen);
    }
  }

  // ---------------------------------------------------------------------------
  // Headers
  // ---------------------------------------------------------------------------

  /** The `headers` dict after its loop: each name bound to the value of its last entry. */
  function HeaderMap(hs: seq<Header>): map<string, string>
    decreases |hs|
  {
    if hs == [] then map[] else HeaderMap(hs[..|hs| - 1])[hs[|hs| - 1].name := hs[|hs| - 1].value]
  }

  /** The names in the map are the header names, and a repeated name keeps its last value. */
  lemma {:induction false} HeaderMapLastWins(hs: seq<Header>)
    ensures forall k :: k in HeaderMap(hs) <==> exists i :: 0 <= i < |hs| && hs[i].name == k
    ensures forall i :: 0 <= i < |hs| && (forall j :: i < j < |hs| ==> hs[j].name != hs[i].name) ==>
              HeaderMap(hs)[hs[i].name] == hs[i].value
    decreases |hs|
  {
    if hs != [] {
      var init := hs[..|hs| - 1];
      HeaderMapLastWins(init);
      forall k
        ensures k in HeaderMap(hs) <==> exists i :: 0 <= i < |hs| && hs[i].name == k
      {
        if k in HeaderMap(init) {
          var i :| 0 <= i < |init| && init[i].name == k;
          assert hs[i] == init[i];
        }
        if exists i :: 0 <= i < |hs| && hs[i].name == k {
          var i :| 0 <= i < |hs| && hs[i].name == k;
          if i < |init| {
            assert init[i] == hs[i];
          }
        }
      }
      forall i | 0 <= i < |hs| && (forall j :: i < j < |hs| ==> hs[j].name != hs[i].name)
        ensures HeaderMap(hs)[hs[i].name] == hs[i].value
      {
        if i < |init| {
          assert init[i] == hs[i];
          assert forall j :: i < j < |init| ==> init[j] == hs[j];
        }
      }
    }
  }

  /** The `headers` loop. */
  method BuildHeaders(hs: seq<Header>) returns (m: map<string, string>)
    ensures m == HeaderMap(hs)
  {
    m := map[];
    var i := 0;
    while i < |hs|
      invariant 0 <= i <= |hs|
      invariant m == HeaderMap(hs[..i])
    {
      assert hs[..i + 1][..i] == hs[..i];
      m := m[hs[i].name := hs[i].value];
      i := i + 1;
    }
    assert hs[..|hs|] == hs;
  }

  /** `headers.get(key, default)` */
  function HeaderOr(m: map<string, string>, key: string, default: string): string {
    if key in m then m[key] else default
  }

  const FROM := "From"
  const UNKNOWN_SENDER := "Unknown"
  const SUBJECT := "Subject"
  const NO_SUBJECT := "No Subject"
  const DATE := "Date"

  /** A header that is present gives its last value, an absent one the default. */
  lemma HeaderDefault(hs: seq<Header>, key: string, default: string)
    ensures (forall i :: 0 <= i < |hs| ==> hs[i].name != key) ==> HeaderOr(HeaderMap(hs), key, default) == default
    ensures forall i :: 0 <= i < |hs| && hs[i].name == key && (forall j :: i < j < |hs| ==> hs[j].name != key) ==>
              HeaderOr(HeaderMap(hs), key, default) == hs[i].value
  {
    HeaderMapLastWins(hs);
  }

  // ---------------------------------------------------------------------------
  // _extract_body
  // ---------------------------------------------------------------------------

  const TEXT_PLAIN := "text/plain"

  /** The parts the loop stops at: a `text/plain` part with data, or one on which a lookup raises. */
  predicate Picked(p: Part) {
    p.MalformedPart? || (p.mimeType == TEXT_PLAIN && p.data != "")
  }

  /** What `_extract_body` returns for the parts from the first on. */
  function BodyOf(parts: seq<Part>, decode: string -> Option<string>): string
    decreases |parts|
  {
    if parts == [] then ""
    else if parts[0].MalformedPart? then ""
    else if parts[0].mimeType == TEXT_PLAIN && parts[0].data != "" then
      (match decode(parts[0].data) case Some(b) => b case None => "")
    else BodyOf(parts[1..], decode)
  }

  /**
   * The body is decided by the first picked part: its decoded data, or `""`
   * when it is malformed or does not decode.
   */
  lemma {:induction false} BodyOfFirstPicked(parts: seq<Part>, decode: string -> Option<string>, i: nat)
    requires i < |parts| && Picked(parts[i]) && forall j :: 0 <= j < i ==> !Picked(parts[j])
    ensures BodyOf(parts, decode)
      == if parts[i].MalformedPart? || decode(parts[i].data).None? then "" else decode(parts[i].data).value
    decreases i
  {
    if i > 0 {
      BodyOfFirstPicked(parts[1..], decode, i - 1);
    }
  }

  /** Without a picked part the body is empty. */
  lemma {:induction false} BodyOfNonePicked(parts: seq<Part>, decode: string -> Option<string>)
    requires forall j :: 0 <= j < |parts| ==> !Picked(parts[j])
    ensures BodyOf(parts, decode) == ""
    decreases |parts|
  {
    if parts != [] {
      BodyOfNonePicked(parts[1..], decode);
    }
  }

  /** `_extract_body`: the loop over the parts with its early return. */
  method ExtractBody(msg: Message, decode: string -> Option<string>) returns (body: string)
    ensures body == BodyOf(msg.parts, decode)
  {
    var parts := msg.parts;
    var i := 0;
    while i < |parts|
      invariant 0 <= i <= |parts|
      invariant BodyOf(parts, decode) == BodyOf(parts[i..], decode)
    {
      var part := parts[i];
      if part.MalformedPart? {
        return "";
      }
      if part.mimeType == TEXT_PLAIN {
        var data := part.data;
        if data != "" {
          var decoded := decode(data);
          if decoded.None? {
            return "";
          }
          return decoded.value;
        }
      }
      assert parts[i..][1..] == parts[i + 1..];
      i := i + 1;
    }
    return "";
  }

  // ---------------------------------------------------------------------------
  // create_action_file
  // ---------------------------------------------------------------------------

  // The fixed texts of the action file, between its fields.
  const FRONT_FROM := "---\ntype: email\nfrom: "
  const FRONT_SUBJECT := "\nsubject: "
  const FRONT_RECEIVED := "\nreceived: "
  const FRONT_ID := "\nemail_id: "
  const FRONT_END := "\npriority: high\nstatus: pending\n---\n\n"
  const TITLE := "# \U{1F4E7} Email: "
  const FROM_LINE := "\n\n**From:** "
  const RECEIVED_LINE := "\n**Received:** "
  const CONTENT_HEADING := "\n\n---\n\n## Email Content\n"
  const BREAK := "\n\n"
  const SUGGESTIONS := "\n\n---\n\n## Suggested Actions\n- [ ] Reply to sender\n- [ ] Forward to relevant party\n- [ ] Archive after processing\n\n"
  const PROCESSED_BY := "---\n*Processed by Gmail Watcher at "
  const CLOSING := "*\n"

  /** The action file for a message. */
  function ActionFileText(id: string, sender: string, subject: string, date: string, snippet: string,
                          body: string, processedAt: string): string
  {
    FRONT_FROM + sender + FRONT_SUBJECT + subject + FRONT_RECEIVED + date + FRONT_ID + id + FRONT_END
    + TITLE + subject + FROM_LINE + sender + RECEIVED_LINE + date + CONTENT_HEADING
    + snippet + BREAK + body + SUGGESTIONS + PROCESSED_BY + processedAt + CLOSING
  }

  /** `EMAIL_<first 12 characters of the id>_<HHMMSS>.md` */
  function EmailFileName(id: string, hhmmss: string): string {
    "EMAIL_" + Take(id, 12) + "_" + hhmmss + ".md"
  }

  /** What calling into a service that failed to authenticate raises. */
  const NO_SERVICE := "'NoneType' object has no attribute 'users'"

  /** The action file written for message `msg` with id `id`, the headers defaulted as `create_action_file` does. */
  function EmailText(id: string, msg: Message, decode: string -> Option<string>, now: Stamp): string {
    var headers := HeaderMap(msg.headers);
    ActionFileText(id, HeaderOr(headers, FROM, UNKNOWN_SENDER), HeaderOr(headers, SUBJECT, NO_SUBJECT),
                   HeaderOr(headers, DATE, now.iso), msg.snippet, BodyOf(msg.parts, decode), now.readable)
  }

  /** After the file `name` is written into `t`: the id is recorded only when marking read succeeded. */
  function Recorded(t: Tree, seen: set<string>, id: string, name: string, marked: Result<()>): Handled {
    match marked
    case Raised(e) => Handled(WatcherState(t, seen), Raised(e))
    case Ok(_) => Handled(WatcherState(t, seen + {id}), Ok(PathIn(NeedsAction, name)))
  }

  /** `create_action_file` on the watcher's state. */
  function Create(s: WatcherState, service: Option<Api>, id: string, now: Stamp): Handled {
    if service.None? then Handled(s, Raised(NO_SERVICE))
    else
      var api := service.value;
      match api.fetch(id)
      case Raised(e) => Handled(s, Raised(e))
      case Ok(msg) =>
        var name := EmailFileName(id, now.hhmmss);
        Recorded(Write(s.tree, NeedsAction, name, EmailText(id, msg, api.decode, now), now.seconds), s.seen, id, name, api.markRead(id))
  }

  /** Recording after a write: the id is added exactly when marking read succeeded, and the tree is the written one. */
  lemma RecordedShape(t: Tree, seen: set<string>, id: string, name: string, marked: Result<()>)
    requires id !in seen
    ensures var h := Recorded(t, seen, id, name, marked);
      && h.state.tree == t
      && (id in h.state.seen <==> marked.Ok?)
      && (h.created.Ok? <==> marked.Ok?)
      && h.state.seen - {id} == seen
      && (h.created.Ok? ==> h.created.value == PathIn(NeedsAction, name))
  {
  }

  /**
   * The id is recorded exactly when the action file was written and the
   * message marked read; when fetching raises nothing changes; otherwise the
   * file `EMAIL_<id[:12]>_<HHMMSS>.md` is in `Needs_Action` and every other
   * file is as before, even when marking read raises afterwards.
   */
  lemma CreateMarksAfterWrite(s: WatcherState, service: Option<Api>, id: string, now: Stamp)
    requires id !in s.seen
    ensures var h := Create(s, service, id, now);
      var name := EmailFileName(id, now.hhmmss);
      && (id in h.state.seen <==> service.Some? && service.value.fetch(id).Ok? && service.value.markRead(id).Ok?)
      && (id in h.state.seen <==> h.created.Ok?)
      && h.state.seen - {id} == s.seen
      && (h.created.Ok? ==> h.created.value == PathIn(NeedsAction, name))
      && (service.None? || service.value.fetch(id).Raised? ==> h.state == s)
      && (service.Some? && service.value.fetch(id).Ok? ==>
            h.state.tree == Write(s.tree, NeedsAction, name, EmailText(id, service.value.fetch(id).value, service.value.decode, now), now.seconds))
  {
    if service.Some? && service.value.fetch(id).Ok? {
      var api := service.value;
      var name := EmailFileName(id, now.hhmmss);
      var t := Write(s.tree, NeedsAction, name, EmailText(id, api.fetch(id).value, api.decode, now), now.seconds);
      RecordedShape(t, s.seen, id, name, api.markRead(id));
    }
  }

  /** `create_action_file` never forgets a processed id. */
  lemma CreateKeepsSeen(service: Option<Api>)
    ensures forall s: WatcherState, id: string, now: Stamp :: s.seen <= Handler(service)(s, id, now).state.seen
  {
    forall s: WatcherState, id: string, now: Stamp
      ensures s.seen <= Handler(service)(s, id, now).state.seen
    {
      assert Handler(service)(s, id, now) == Create(s, service, id, now);
    }
  }

  /** `create_action_file` as the step the loop of `run` takes. */
  function Handler(service: Option<Api>): (WatcherState, string, Stamp) -> Handled {
    (s: WatcherState, id: string, now: Stamp) => Create(s, service, id, now)
  }

  /** `check_for_updates` as the poll the loop of `run` makes. */
  function Poller(service: Option<Api>): (WatcherState, Result<seq<string>>) -> seq<string> {
    (s: WatcherState, listing: Result<seq<string>>) => Updates(service, listing, s.seen)
  }

  /**
   * A pass with no service, a listing that raised, or nothing new writes no
   * file, starts no agent and logs nothing.
   */
  lemma QuietPass(s: WatcherState, service: Option<Api>, listing: Result<seq<string>>, clock: nat -> Stamp)
    requires service.None? || listing.Raised? || forall i :: 0 <= i < |listing.value| ==> listing.value[i] in s.seen
    ensures Round(s, listing, Poller(service), Handler(service), clock) == Pass(s, [], None)
  {
    if service.Some? && listing.Ok? {
      NewMessagesAllSeen(listing.value, s.seen);
    }
  }

  /** A pass never forgets an id, so an id processed in one pass is not polled in any later one. */
  lemma PassRemembers(s: WatcherState, service: Option<Api>, listing: Result<seq<string>>, clock: nat -> Stamp,
                      later: Result<seq<string>>, id: string)
    requires id in s.seen
    ensures var pass := Round(s, listing, Poller(service), Handler(service), clock);
      s.seen <= pass.state.seen && id !in Updates(service, later, pass.state.seen)
  {
    CreateKeepsSeen(service);
    BatchKeepsSeen(s, Updates(service, listing, s.seen), Handler(service), clock, 0);
    ProcessedNotPolled(service, later, Round(s, listing, Poller(service), Handler(service), clock).state.seen, id);
  }

  // ---------------------------------------------------------------------------
  // The watcher
  // ---------------------------------------------------------------------------

  class GmailWatcher {
    const base: Watcher
    const service: Option<Api>
    var processedIds: set<string>

    /**
     * `GmailWatcher.__init__`: a base watcher named `GmailWatcher` polling
     * every 120 seconds, the ids loaded from disk and the service from
     * authentication (absent when it failed).
     */
    constructor(vault: Store, service: Option<Api>, loaded: set<string>)
      ensures base.name == "GmailWatcher" && base.checkInterval == 120 && base.vault == vault && base.triggered == []
      ensures this.service == service && processedIds == loaded
      ensures fresh(base)
    {
      base := new Watcher("GmailWatcher", 120, vault);
      this.service := service;
      processedIds := loaded;
    }

    function State(): WatcherState
      reads this, base.vault
    {
      WatcherState(base.vault.tree, processedIds)
    }

    /** `create_action_file(message)`, with `now` the clock reading it formats. */
    method CreateActionFile(id: string, now: Stamp) returns (created: Result<Path>)
      modifies this, base.vault
      ensures Handled(State(), created) == Handler(service)(old(State()), id, now)
    {
      ghost var s := State();
      assert Handler(service)(s, id, now) == Create(s, service, id, now);
      if service.None? {
        return Raised(NO_SERVICE);
      }
      var api := service.value;
      var fetched := api.fetch(id);
      if fetched.Raised? {
        return Raised(fetched.error);
      }
      var msg := fetched.value;
      var headers := BuildHeaders(msg.headers);
      var sender := HeaderOr(headers, FROM, UNKNOWN_SENDER);
      var subject := HeaderOr(headers, SUBJECT, NO_SUBJECT);
      var date := HeaderOr(headers, DATE, now.iso);
      var body := ExtractBody(msg, api.decode);
      var content := ActionFileText(id, sender, subject, date, msg.snippet, body, now.readable);
      assert content == EmailText(id, msg, api.decode, now);
      var filename := EmailFileName(id, now.hhmmss);
      var path := base.WriteActionFile(filename, content, now.seconds);
      var marked := api.markRead(id);
      if marked.Raised? {
        return Raised(marked.error);
      }
      processedIds := processedIds + {id};
      return Ok(path);
    }

    /** One pass of `run`'s loop: poll, then create an action file and trigger the agent per new message. */
    method Poll(listing: Result<seq<string>>, clock: nat -> Stamp) returns (pass: Pass)
      modifies this, base, base.vault
      ensures pass == Round(old(State()), listing, Poller(service), Handler(service), clock)
      ensures State() == pass.state
      ensures base.triggered == old(base.triggered) + pass.started
    {
      var items := Updates(service, listing, processedIds);
      ghost var s0 := State();
      ghost var s := s0;
      var started: seq<Path> := [];
      var i := 0;
      while i < |items|
        invariant 0 <= i <= |items|
        invariant s == State()
        invariant Batch(s0, items, Handler(service), clock, 0) == After(started, Batch(s, items[i..], Handler(service), clock, i))
        invariant base.triggered == old(base.triggered) + started
      {
        var created := CreateActionFile(items[i], clock(i));
        BatchAdvance(s0, items, i, started, s, Handled(State(), created), Handler(service), clock);
        s := State();
        if created.Raised? {
          return Pass(State(), started, Some(created.error));
        }
        base.TriggerAgent(created.value);
        started := started + [created.value];
        i := i + 1;
      }
      return Pass(State(), started, None);
    }

    /** `run`: one pass per input until the inputs run out; errors are logged and polling goes on. */
    method Run(inputs: seq<Result<seq<string>>>, clock: (nat, nat) -> Stamp) returns (passes: seq<Pass>)
      modifies this, base, base.vault
      ensures passes == Rounds(old(State()), inputs, Poller(service), Handler(service), clock, 0)
      ensures base.triggered == old(base.triggered) + StartedIn(passes)
    {
      ghost var s0 := State();
      ghost var s := s0;
      passes := [];
      var i := 0;
      while i < |inputs|
        invariant 0 <= i <= |inputs|
        invariant s == State()
        invariant Rounds(s0, inputs, Poller(service), Handler(service), clock, 0)
                  == passes + Rounds(s, inputs[i..], Poller(service), Handler(service), clock, i)
        invariant base.triggered == old(base.triggered) + StartedIn(passes)
      {
        var pass := Poll(inputs[i], ClockOf(clock, i));
        RoundsAdvance(s0, inputs, i, passes, s, pass, Poller(service), Handler(service), clock);
        StartedInAppend(passes, pass);
        SeqAppendAssoc(old(base.triggered), StartedIn(passes), pass.started);
        passes := passes + [pass];
        s := pass.state;
        i := i + 1;
      }
    }
  }
}
