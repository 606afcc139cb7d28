// The parent of the source adapters (`base_watcher.py`): the vault folders a
// watcher writes to, the two write helpers, the agent trigger, and what one
// pass of the polling loop `run` does with the items a poll returns.

module BaseWatcher {
  import opened Wrappers
  import opened Vault

  /** A path in the vault: folder names, then a file name. */
  type Path = seq<string>

  /** The path of `f/name`. */
  function PathIn(f: Folder, name: string): Path {
    FolderPath(f) + [name]
  }

  /**
   * One reading of the clock, in the forms the watchers format it in:
   * seconds for the file time, `%H%M%S`, `%Y-%m-%d %H:%M:%S` and ISO 8601.
   */
  datatype Stamp = Stamp(seconds: int, hhmmss: string, readable: string, iso: string)

  /**
   * What a watcher's work depends on and changes: the vault's folders and the
   * items it has already handled (message ids or fingerprints).
   */
  datatype WatcherState = WatcherState(tree: Tree, seen: set<string>)

  /** What `create_action_file` did with one item: the new state, and the path it returned or what it raised. */
  datatype Handled = Handled(state: WatcherState, created: Result<Path>)

  /**
   * What one pass of the loop in `run` did: the new state, the action files
   * the agent was started on, in order, and the error it logged, if any.
   */
  datatype Pass = Pass(state: WatcherState, started: seq<Path>, error: Option<string>)

  /** `pass` with `started` in front of its started files. */
  function After(started: seq<Path>, pass: Pass): Pass {
    Pass(pass.state, started + pass.started, pass.error)
  }

  /**
   * The items of one poll handled in order from item `k` on: each by one
   * call of `create`, at the clock reading `clock(k)`, followed by one
   * agent trigger on the path it returned. The first item that raises ends
   * the pass: the error is logged and the items after it are left for a
   * later poll.
   */
  function Batch<I>(s: WatcherState, items: seq<I>, create: (WatcherState, I, Stamp) -> Handled,
                    clock: nat -> Stamp, k: nat): Pass
    decreases |items|
  {
    if items == [] then Pass(s, [], None)
    else
      var h := create(s, items[0], clock(k));
      match h.created
      case Raised(e) => Pass(h.state, [], Some(e))
      case Ok(p) => After([p], Batch(h.state, items[1..], create, clock, k + 1))
  }

  /** Handling `a + b` is handling `a`, then, unless that raised, handling `b` from where `a` left off. */
  lemma {:induction false} BatchAppend<I>(s: WatcherState, a: seq<I>, b: seq<I>,
                                         create: (WatcherState, I, Stamp) -> Handled, clock: nat -> Stamp, k: nat)
    ensures var first := Batch(s, a, create, clock, k);
      Batch(s, a + b, create, clock, k)
      == if first.error.Some? then first
         else After(first.started, Batch(first.state, b, create, clock, k + |a|))
    decreases |a|
  {
    if a == [] {
      assert a + b == b;
    } else {
      assert (a + b)[0] == a[0];
      assert (a + b)[1..] == a[1..] + b;
      var h := create(s, a[0], clock(k));
      if h.created.Ok? {
        BatchAppend(h.state, a[1..], b, create, clock, k + 1);
      }
    }
  }

  /**
   * An exception on item `i` ends the pass there: the files started are
   * those of the items before it, the error is the one it raised, and no item
   * after it is handled.
   */
  lemma BatchSkipsRest<I>(s: WatcherState, items: seq<I>, create: (WatcherState, I, Stamp) -> Handled,
                         clock: nat -> Stamp, i: nat)
    requires i < |items|
    requires Batch(s, items[..i], create, clock, 0).error.None?
    requires create(Batch(s, items[..i], create, clock, 0).state, items[i], clock(i)).created.Raised?
    ensures var before := Batch(s, items[..i], create, clock, 0);
      var h := create(before.state, items[i], clock(i));
      Batch(s, items, create, clock, 0) == Pass(h.state, before.started, Some(h.created.error))
  {
    assert items == items[..i] + items[i..];
    BatchAppend(s, items[..i], items[i..], create, clock, 0);
    assert items[i..][0] == items[i];
  }

  /** Without an error every item starts the agent once; with one, fewer items do. */
  lemma {:induction false} BatchStarted<I>(s: WatcherState, items: seq<I>, create: (WatcherState, I, Stamp) -> Handled,
                                          clock: nat -> Stamp, k: nat)
    ensures var pass := Batch(s, items, create, clock, k);
      && (pass.error.None? ==> |pass.started| == |items|)
      && (pass.error.Some? ==> |pass.started| < |items|)
    decreases |items|
  {
    if items != [] {
      var h := create(s, items[0], clock(k));
      if h.created.Ok? {
        BatchStarted(h.state, items[1..], create, clock, k + 1);
      }
    }
  }

  /** With a `create` that never raises, every item of the poll starts the agent. */
  lemma BatchNeverFails<I>(s: WatcherState, items: seq<I>, create: (WatcherState, I, Stamp) -> Handled,
                          clock: nat -> Stamp, k: nat)
    requires forall s': WatcherState, x: I, now: Stamp :: create(s', x, now).created.Ok?
    ensures Batch(s, items, create, clock, k).error.None?
    ensures |Batch(s, items, create, clock, k).started| == |items|
  {
    BatchErrorFree(s, items, create, clock, k);
    BatchStarted(s, items, create, clock, k);
  }

  lemma {:induction false} BatchErrorFree<I>(s: WatcherState, items: seq<I>, create: (WatcherState, I, Stamp) -> Handled,
                                            clock: nat -> Stamp, k: nat)
    requires forall s': WatcherState, x: I, now: Stamp :: create(s', x, now).created.Ok?
    ensures Batch(s, items, create, clock, k).error.None?
    decreases |items|
  {
    if items != [] {
      BatchErrorFree(create(s, items[0], clock(k)).state, items[1..], create, clock, k + 1);
    }
  }

  /**
   * A poll with no items changes nothing, starts nothing and logs nothing;
   * and a pass that started nothing and logged nothing had no items.
   */
  lemma BatchOfNothing<I>(s: WatcherState, items: seq<I>, create: (WatcherState, I, Stamp) -> Handled,
                         clock: nat -> Stamp, k: nat)
    ensures items == [] ==> Batch(s, items, create, clock, k) == Pass(s, [], None)
    ensures Batch(s, items, create, clock, k).started == [] && Batch(s, items, create, clock, k).error.None? ==> items == []
  {
    BatchStarted(s, items, create, clock, k);
  }

  /**
   * One pass of `run`: poll with this pass's input (what the source returns
   * this time), then handle the items the poll returned.
   */
  function Round<R, I>(s: WatcherState, input: R, poll: (WatcherState, R) -> seq<I>,
                       create: (WatcherState, I, Stamp) -> Handled, clock: nat -> Stamp): Pass
  {
    Batch(s, poll(s, input), create, clock, 0)
  }

  /** The clock readings of pass `r`, item by item. */
  function ClockOf(clock: (nat, nat) -> Stamp, r: nat): nat -> Stamp {
    (k: nat) => clock(r, k)
  }

  /** The files the agent was started on over several passes, in order. */
  function StartedIn(passes: seq<Pass>): seq<Path>
    decreases |passes|
  {
    if passes == [] then [] else passes[0].started + StartedIn(passes[1..])
  }

  /** Started files accumulate pass by pass. */
  lemma {:induction false} StartedInAppend(passes: seq<Pass>, p: Pass)
    ensures StartedIn(passes + [p]) == StartedIn(passes) + p.started
    decreases |passes|
  {
    if passes == [] {
      assert [] + [p] == [p];
    } else {
      assert (passes + [p])[1..] == passes[1..] + [p];
      StartedInAppend(passes[1..], p);
    }
  }

  /**
   * A `create` that never forgets an item it has seen is such that a pass
   * never forgets one either.
   */
  lemma {:induction false} BatchKeepsSeen<I>(s: WatcherState, items: seq<I>, create: (WatcherState, I, Stamp) -> Handled,
                                            clock: nat -> Stamp, k: nat)
    requires forall s': WatcherState, x: I, now: Stamp :: s'.seen <= create(s', x, now).state.seen
    ensures s.seen <= Batch(s, items, create, clock, k).state.seen
    decreases |items|
  {
    if items != [] {
      var h := create(s, items[0], clock(k));
      if h.created.Ok? {
        BatchKeepsSeen(h.state, items[1..], create, clock, k + 1);
      }
    }
  }

  /**
   * The passes of `run` from pass `r` on, one per input, until the inputs run
   * out (Ctrl+C). An error logged in one pass does not end the loop.
   */
  function Rounds<R, I>(s: WatcherState, inputs: seq<R>, poll: (WatcherState, R) -> seq<I>,
                        create: (WatcherState, I, Stamp) -> Handled, clock: (nat, nat) -> Stamp, r: nat): seq<Pass>
    decreases |inputs|
  {
    if inputs == [] then []
    else
      var p := Round(s, inputs[0], poll, create, ClockOf(clock, r));
      [p] + Rounds(p.state, inputs[1..], poll, create, clock, r + 1)
  }

  /**
   * `run` polls once per input whatever happened before: each pass starts
   * from the state the previous one left, error or not.
   */
  lemma {:induction false} RoundsKeepPolling<R, I>(s: WatcherState, inputs: seq<R>, poll: (WatcherState, R) -> seq<I>,
                                                  create: (WatcherState, I, Stamp) -> Handled,
                                                  clock: (nat, nat) -> Stamp, r: nat)
    ensures var passes := Rounds(s, inputs, poll, create, clock, r);
      && |passes| == |inputs|
      && (inputs != [] ==> passes[0] == Round(s, inputs[0], poll, create, ClockOf(clock, r)))
      && forall j :: 0 <= j < |inputs| - 1 ==>
           passes[j + 1] == Round(passes[j].state, inputs[j + 1], poll, create, ClockOf(clock, r + j + 1))
    decreases |inputs|
  {
    if inputs != [] {
      var p := Round(s, inputs[0], poll, create, ClockOf(clock, r));
      var rest := Rounds(p.state, inputs[1..], poll, create, clock, r + 1);
      RoundsKeepPolling(p.state, inputs[1..], poll, create, clock, r + 1);
      var passes := [p] + rest;
      assert Rounds(s, inputs, poll, create, clock, r) == passes;
      forall j | 0 <= j < |inputs| - 1
        ensures passes[j + 1] == Round(passes[j].state, inputs[j + 1], poll, create, ClockOf(clock, r + j + 1))
      {
        if j > 0 {
          assert passes[j] == rest[j - 1] && passes[j + 1] == rest[j];
          assert inputs[j + 1] == inputs[1..][j];
        }
      }
    }
  }

  /** Unfolding `Rounds` one pass at a time, as `run`'s loop does. */
  lemma RoundsStep<R, I>(s: WatcherState, inputs: seq<R>, i: nat, poll: (WatcherState, R) -> seq<I>,
                         create: (WatcherState, I, Stamp) -> Handled, clock: (nat, nat) -> Stamp)
    requires i < |inputs|
    ensures var p := Round(s, inputs[i], poll, create, ClockOf(clock, i));
      Rounds(s, inputs[i..], poll, create, clock, i) == [p] + Rounds(p.state, inputs[i + 1..], poll, create, clock, i + 1)
  {
    assert inputs[i..][1..] == inputs[i + 1..];
  }

  /**
   * One step of the item loop of `run`: handling item `i` either ends the
   * pass with its error or adds its path to the started files.
   */
  lemma BatchAdvance<I>(s0: WatcherState, items: seq<I>, i: nat, started: seq<Path>, s: WatcherState, h: Handled,
                        create: (WatcherState, I, Stamp) -> Handled, clock: nat -> Stamp)
    requires i < |items|
    requires Batch(s0, items, create, clock, 0) == After(started, Batch(s, items[i..], create, clock, i))
    requires h == create(s, items[i], clock(i))
    ensures h.created.Raised? ==> Batch(s0, items, create, clock, 0) == Pass(h.state, started, Some(h.created.error))
    ensures h.created.Ok? ==>
      Batch(s0, items, create, clock, 0) == After(started + [h.created.value], Batch(h.state, items[i + 1..], create, clock, i + 1))
  {
    assert items[i..][0] == items[i] && items[i..][1..] == items[i + 1..];
  }

  /** One step of the loop of `run`: pass `i` starts from the state pass `i - 1` left. */
  lemma RoundsAdvance<R, I>(s0: WatcherState, inputs: seq<R>, i: nat, passes: seq<Pass>, s: WatcherState, pass: Pass,
                            poll: (WatcherState, R) -> seq<I>, create: (WatcherState, I, Stamp) -> Handled,
                            clock: (nat, nat) -> Stamp)
    requires i < |inputs|
    requires Rounds(s0, inputs, poll, create, clock, 0) == passes + Rounds(s, inputs[i..], poll, create, clock, i)
    requires pass == Round(s, inputs[i], poll, create, ClockOf(clock, i))
    ensures Rounds(s0, inputs, poll, create, clock, 0)
            == (passes + [pass]) + Rounds(pass.state, inputs[i + 1..], poll, create, clock, i + 1)
  {
    RoundsStep(s, inputs, i, poll, create, clock);
  }

  /** A watcher: its name, its poll interval, the vault it writes to and the agent runs it started. */
  class Watcher {
    const name: string
    const checkInterval: int
    const vault: Store
    /** The action files `trigger_agent` started the agent on, in order. */
    var triggered: seq<Path>

    /** `BaseWatcher.__init__`: the folders are fixed by the vault layout; nothing has been triggered. */
    constructor(name: string, checkInterval: int, vault: Store)
      ensures this.name == name && this.checkInterval == checkInterval && this.vault == vault
      ensures triggered == []
    {
      this.name := name;
      this.checkInterval := checkInterval;
      this.vault := vault;
      triggered := [];
    }

    /** `write_action_file`: `Needs_Action/filename` holds `content`; its path is returned. */
    method WriteActionFile(filename: string, content: string, now: int) returns (path: Path)
      modifies vault
      ensures vault.tree == Write(old(vault.tree), NeedsAction, filename, content, now)
      ensures path == PathIn(NeedsAction, filename)
    {
      vault.WriteFile(NeedsAction, filename, content, now);
      path := PathIn(NeedsAction, filename);
    }

    /** `write_approval_file`: `Needs_Action/APPROVAL_REQUIRED/filename` holds `content`. */
    method WriteApprovalFile(filename: string, content: string, now: int) returns (path: Path)
      modifies vault
      ensures vault.tree == Write(old(vault.tree), ApprovalRequired, filename, content, now)
      ensures path == PathIn(ApprovalRequired, filename)
    {
      vault.WriteFile(ApprovalRequired, filename, content, now);
      path := PathIn(ApprovalRequired, filename);
    }

    /** `trigger_agent`: the agent is started on `path`. */
    method TriggerAgent(path: Path)
      modifies this
      ensures triggered == old(triggered) + [path]
    {
      triggered := triggered + [path];
    }
  }
}
