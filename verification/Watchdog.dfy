/**
 * When the cloud thread feeds the watchdog, in milliseconds. The loop either waits for its semaphore, feeding on each
 * timeout, or polls, feeding before each `poll`. Processing is taken to need no time.
 */
module Watchdog {
  const WDT_WINDOW := 60000
  const SEM_TIMEOUT := 55000

  datatype Mode = Idle | Polling

  /** A feed; `dropped` says that the loop has left poll mode since the feed before. */
  datatype Feed = Feed(at: nat, dropped: bool)

  datatype State = State(now: nat, mode: Mode, started: bool, dropped: bool, feeds: seq<Feed>)

  /** One wait of the loop. The semaphore, once taken, finds the client connected. */
  datatype Turn =
    | TimesOut
    | Taken(after: nat)
    | Polled(lasted: nat, connected: bool)

  const INIT := State(0, Idle, false, false, [])

  /** `poll` waits at most `keepAlive`, the semaphore at most its timeout. */
  predicate Enabled(s: State, t: Turn, keepAlive: nat) {
    match t
    case TimesOut => s.mode == Idle
    case Taken(after) => s.mode == Idle && after <= SEM_TIMEOUT
    case Polled(lasted, _) => s.mode == Polling && lasted <= keepAlive
  }

  function Fed(s: State): State {
    s.(dropped := false, feeds := s.feeds + [Feed(s.now, s.dropped)])
  }

  function Apply(s: State, t: Turn): State {
    match t
    case TimesOut =>
      var s' := s.(now := s.now + SEM_TIMEOUT);
      if s.started then Fed(s') else s'
    case Taken(after) => Fed(s.(now := s.now + after, mode := Polling, started := true))
    case Polled(lasted, connected) =>
      var s' := s.(now := s.now + lasted);
      if connected then Fed(s') else s'.(mode := Idle, dropped := true)
  }

  ghost predicate Legal(s: State, turns: seq<Turn>, keepAlive: nat)
    decreases |turns|
  {
    turns == [] || (Enabled(s, turns[0], keepAlive) && Legal(Apply(s, turns[0]), turns[1..], keepAlive))
  }

  ghost function Run(s: State, turns: seq<Turn>): State
    decreases |turns|
  {
    if turns == [] then s else Run(Apply(s, turns[0]), turns[1..])
  }

  function Max(a: nat, b: nat): nat { if a < b then b else a }

  /** The longest time there may be between a feed and the one before. */
  function Bound(f: Feed, keepAlive: nat): nat {
    if f.dropped then keepAlive + SEM_TIMEOUT else Max(keepAlive, SEM_TIMEOUT)
  }

  ghost predicate FedInTime(feeds: seq<Feed>, keepAlive: nat) {
    forall i {:trigger feeds[i]} :: 0 < i < |feeds| ==>
      feeds[i - 1].at <= feeds[i].at <= feeds[i - 1].at + Bound(feeds[i], keepAlive)
  }

  ghost predicate Inv(s: State, keepAlive: nat) {
    && FedInTime(s.feeds, keepAlive)
    && (s.started <==> s.feeds != [])
    && (s.started ==>
          var last := s.feeds[|s.feeds| - 1].at;
          last <= s.now <= last + if s.dropped then keepAlive else 0)
    && (s.mode == Polling ==> s.started && !s.dropped)
    && (!s.started ==> !s.dropped)
  }

  lemma FedKeeps(s: State, keepAlive: nat)
    requires FedInTime(s.feeds, keepAlive)
    requires s.feeds != [] ==>
      s.feeds[|s.feeds| - 1].at <= s.now <= s.feeds[|s.feeds| - 1].at + Bound(Feed(s.now, s.dropped), keepAlive)
    ensures FedInTime(Fed(s).feeds, keepAlive)
  {
    var n := |s.feeds|;
    forall i | 0 < i <= n
      ensures Fed(s).feeds[i - 1].at <= Fed(s).feeds[i].at
           <= Fed(s).feeds[i - 1].at + Bound(Fed(s).feeds[i], keepAlive)
    {
      if i < n {
        assert s.feeds[i - 1].at <= s.feeds[i].at;
      }
    }
  }

  lemma InvStep(s: State, t: Turn, keepAlive: nat)
    requires Inv(s, keepAlive) && Enabled(s, t, keepAlive)
    ensures Inv(Apply(s, t), keepAlive)
  {
    hide FedInTime;
    match t {
      case TimesOut =>
        if s.started {
          FedKeeps(s.(now := s.now + SEM_TIMEOUT), keepAlive);
        }
      case Taken(after) =>
        FedKeeps(s.(now := s.now + after, mode := Polling, started := true), keepAlive);
      case Polled(lasted, connected) =>
        if connected {
          FedKeeps(s.(now := s.now + lasted), keepAlive);
        }
    }
  }

  lemma {:induction false} InvRun(s: State, turns: seq<Turn>, keepAlive: nat)
    requires Inv(s, keepAlive) && Legal(s, turns, keepAlive)
    ensures Inv(Run(s, turns), keepAlive)
    decreases |turns|
  {
    if turns == [] {
    } else {
      InvStep(s, turns[0], keepAlive);
      InvRun(Apply(s, turns[0]), turns[1..], keepAlive);
    }
  }

  /**
   * In every run, consecutive feeds are at most `keepAlive` or the semaphore timeout apart, whichever is longer,
   * and at most their sum when the connection dropped in between.
   */
  lemma FeedsAreInTime(turns: seq<Turn>, keepAlive: nat)
    requires Legal(INIT, turns, keepAlive)
    ensures FedInTime(Run(INIT, turns).feeds, keepAlive)
  {
    InvRun(INIT, turns, keepAlive);
  }

  /** So with a keep-alive inside the window, a feed is late only if the connection dropped just before it. */
  lemma OnlyDropsAreLate(turns: seq<Turn>, keepAlive: nat, i: nat)
    requires Legal(INIT, turns, keepAlive) && keepAlive <= WDT_WINDOW
    requires var feeds := Run(INIT, turns).feeds; 0 < i < |feeds| && feeds[i].at - feeds[i - 1].at > WDT_WINDOW
    ensures Run(INIT, turns).feeds[i].dropped
  {
    FeedsAreInTime(turns, keepAlive);
    var feeds := Run(INIT, turns).feeds;
    assert feeds[i].at <= feeds[i - 1].at + Bound(feeds[i], keepAlive);
  }

  /** Every feed of every run comes inside the watchdog's window. */
  ghost predicate AlwaysInWindow(keepAlive: nat) {
    forall turns: seq<Turn>, i: nat {:trigger Run(INIT, turns).feeds[i]} ::
      Legal(INIT, turns, keepAlive) && 0 < i < |Run(INIT, turns).feeds| ==>
        Run(INIT, turns).feeds[i].at - Run(INIT, turns).feeds[i - 1].at <= WDT_WINDOW
  }

  lemma {:induction false} RunNext(s: State, turns: seq<Turn>, t: Turn, keepAlive: nat)
    requires Legal(s, turns, keepAlive) && Enabled(Run(s, turns), t, keepAlive)
    ensures Legal(s, turns + [t], keepAlive) && Run(s, turns + [t]) == Apply(Run(s, turns), t)
    decreases |turns|
  {
    hide Enabled, Apply;
    if turns == [] {
      assert turns + [t] == [t] && [t][1..] == [];
    } else {
      RunNext(Apply(s, turns[0]), turns[1..], t, keepAlive);
      assert (turns + [t])[1..] == turns[1..] + [t];
    }
  }

  /** A connection that drops at the end of a full poll, with no reconnect, reaches the longer bound. */
  lemma FullPollThenDrop(after: nat, keepAlive: nat) returns (turns: seq<Turn>)
    requires after <= SEM_TIMEOUT
    ensures Legal(INIT, turns, keepAlive)
    ensures Run(INIT, turns).feeds == [Feed(after, false), Feed(after + keepAlive + SEM_TIMEOUT, true)]
  {
    var a, b, c := Taken(after), Polled(keepAlive, false), TimesOut;
    turns := RunThree(INIT, a, b, c, keepAlive);
    hide Legal, Run;
    assert Apply(Apply(INIT, a), b) == State(after + keepAlive, Idle, true, true, [Feed(after, false)]);
  }

  lemma RunThree(s: State, a: Turn, b: Turn, c: Turn, keepAlive: nat) returns (turns: seq<Turn>)
    requires Enabled(s, a, keepAlive) && Enabled(Apply(s, a), b, keepAlive)
    requires Enabled(Apply(Apply(s, a), b), c, keepAlive)
    ensures Legal(s, turns, keepAlive) && Run(s, turns) == Apply(Apply(Apply(s, a), b), c)
  {
    turns := [];
    assert Legal(s, turns, keepAlive) && Run(s, turns) == s;
    hide Legal, Run, Apply, Enabled;
    RunNext(s, turns, a, keepAlive);
    RunNext(s, turns + [a], b, keepAlive);
    RunNext(s, turns + [a] + [b], c, keepAlive);
    turns := turns + [a] + [b] + [c];
  }

  /** The watchdog cannot expire exactly when the keep-alive leaves room for a semaphore timeout: at most 5 s. */
  lemma AlwaysInWindowIff(keepAlive: nat)
    ensures AlwaysInWindow(keepAlive) <==> keepAlive <= 5000
  {
    hide Legal, Run;
    if keepAlive <= WDT_WINDOW - SEM_TIMEOUT {
      forall turns: seq<Turn>, i: nat | Legal(INIT, turns, keepAlive) && 0 < i < |Run(INIT, turns).feeds|
        ensures Run(INIT, turns).feeds[i].at - Run(INIT, turns).feeds[i - 1].at <= WDT_WINDOW
      {
        FeedsAreInTime(turns, keepAlive);
        var feeds := Run(INIT, turns).feeds;
        assert feeds[i].at <= feeds[i - 1].at + Bound(feeds[i], keepAlive);
      }
    } else {
      var turns := FullPollThenDrop(0, keepAlive);
      assert Run(INIT, turns).feeds[1].at - Run(INIT, turns).feeds[0].at > WDT_WINDOW;
    }
  }
}
