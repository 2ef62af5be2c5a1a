/**
 * What a log of the cloud client tells: the state of the client can be read off it, every OTA publish is answered as it
 * must be, and nothing that was asked for is forgotten.
 */
module CloudHistory {
  import opened Options
  import opened Version
  import opened CloudProtocol

  // ---------------------------------------------------------------- the state, read off the log

  /** What an observer knows of the state; the cloud thread and its semaphore are not seen. */
  datatype Known = Known(fw: Firmware, mqtt: Session, main: MainThread, connected: bool, reconnect: bool, halted: bool)

  function KnownOf(s: State): Known { Known(s.fw, s.mqtt, s.main, s.link.connected, s.link.reconnect, s.halted) }

  /** What one event tells, by itself: a piece of work is pending from its submission until it runs. */
  function Observe(k: Known, e: Event): Known {
    match e
    case BootFailed => k.(halted := true)
    case Connected =>
      k.(connected := true, reconnect := false,
         main := k.main.(pc := if k.main.pc == Booting then WaitReady else k.main.pc))
    case Disconnected => k.(connected := false, reconnect := true)
    case Connacked => k.(mqtt := k.mqtt.(onConnect := true))
    case ConnectHandled => k.(mqtt := k.mqtt.(onConnect := false))
    case OtaSubscribed(id) => k.(mqtt := k.mqtt.(subId := id))
    case SubAck(_) => k
    case RequestSubmitted => k.(mqtt := k.mqtt.(request := true, watch := true))
    case CheckPublished => k.(mqtt := k.mqtt.(request := false))
    case CheckRefused => k.(mqtt := k.mqtt.(request := false))
    case OtaPublish(_, stored) => k.(fw := k.fw.(data := stored), mqtt := k.mqtt.(checked := true))
    case Accepted(_) => k.(fw := k.fw.(ota := Started, fota := true))
    case DoneSubmitted => k.(mqtt := k.mqtt.(done := true))
    case AppSubscribed => k
    case ReadyCallback => k.(main := k.main.(sem := true))
    case DonePublished => k.(mqtt := k.mqtt.(done := false))
    case DoneRefused => k.(mqtt := k.mqtt.(done := false))
    case SetupEntered => k.(main := MainThread(InSetup, false))
    case DownloadStarted(_) => k.(fw := k.fw.(ota := Downloading, fota := false, downloading := true))
    case DownloadRefused => k.(fw := k.fw.(ota := Error, fota := false), halted := true)
    case DownloadEnded(finished) =>
      k.(fw := k.fw.(ota := if finished then Done else Error, downloading := false, reboot := true))
    case CheckPassed => k.(mqtt := k.mqtt.(watch := false))
    case NoResponseAssert => k.(mqtt := k.mqtt.(watch := false), halted := true)
    case Reboot => k.(fw := k.fw.(reboot := false), halted := true)
  }

  ghost function Replay(k: Known, log: seq<Event>): Known {
    if log == [] then k else Observe(Replay(k, log[..|log| - 1]), log[|log| - 1])
  }

  lemma ReplayNext(k: Known, log: seq<Event>, e: Event)
    ensures Replay(k, log + [e]) == Observe(Replay(k, log), e)
  {
    assert (log + [e])[..|log|] == log;
  }

  lemma ReplayTwo(k: Known, log: seq<Event>, d: Event, e: Event)
    ensures Replay(k, log + [d, e]) == Observe(Observe(Replay(k, log), d), e)
  {
    ReplayNext(k, log, d);
    ReplayNext(k, log + [d], e);
    assert log + [d] + [e] == log + [d, e];
  }

  lemma ReplayFour(k: Known, log: seq<Event>, a: Event, b: Event, c: Event, d: Event)
    ensures Replay(k, log + [a, b, c, d]) == Observe(Observe(Observe(Observe(Replay(k, log), a), b), c), d)
  {
    hide Replay, Observe;
    ReplayTwo(k, log, a, b);
    ReplayTwo(k, log + [a, b], c, d);
    assert log + [a, b] + [c, d] == log + [a, b, c, d];
  }

  lemma ObserveLink(s: State, a: Action)
    requires Recovers(s) && Enabled(s, a)
    requires a.MainConnects? || a.Connack? || a.Disconnect? || a.RunReconnect? || a.PollAborts?
    ensures KnownOf(Apply(s, a)) == (if Events(s, a) == [] then KnownOf(s) else Observe(KnownOf(s), Events(s, a)[0]))
    ensures |Events(s, a)| <= 1
  {
    hide Compare;
  }

  lemma ObserveWork(s: State, a: Action)
    requires Enabled(s, a)
    requires a.RunOtaRequest? || a.RunOtaDone? || a.RunCheckSubscribed? || a.MainTakesSem?
    ensures |Events(s, a)| == 1 && KnownOf(Apply(s, a)) == Observe(KnownOf(s), Events(s, a)[0])
  {
    hide Compare;
  }

  lemma ObserveDownload(s: State, a: Action)
    requires Enabled(s, a) && (a.RunFota? || a.FotaEvent? || a.RunReboot?)
    ensures |Events(s, a)| == 1 && KnownOf(Apply(s, a)) == Observe(KnownOf(s), Events(s, a)[0])
  {
    hide Compare;
  }

  lemma ObserveSession(s: State, a: Action)
    requires Enabled(s, a) && (a.Suback? || a.RunOnConnect?)
    ensures
      var k, events := KnownOf(s), Events(s, a);
      && |events| <= 2
      && KnownOf(Apply(s, a)) == (if |events| == 0 then k
                                  else if |events| == 1 then Observe(k, events[0])
                                  else Observe(Observe(k, events[0]), events[1]))
  {
    hide Compare;
  }

  lemma ObservePublish(s: State, a: Action)
    requires Enabled(s, a) && a.PublishOta?
    ensures
      var k, events := KnownOf(s), Events(s, a);
      && |events| in {1, 2, 4}
      && KnownOf(Apply(s, a)) ==
        (if |events| == 1 then Observe(k, events[0])
         else if |events| == 2 then Observe(Observe(k, events[0]), events[1])
         else Observe(Observe(Observe(Observe(k, events[0]), events[1]), events[2]), events[3]))
  {
    hide Compare;
  }

  lemma ObserveThread(s: State, a: Action)
    requires Enabled(s, a)
    requires a.CloudTakesSem? || a.CloudChecksState? || a.PollReturns? || a.PollBreaks? || a.CloudLeaves?
    ensures Events(s, a) == [] && KnownOf(Apply(s, a)) == KnownOf(s)
  {
    hide Compare;
  }

  /** Each step's events tell all that it changes. */
  lemma ObserveStep(k: Known, s: State, a: Action)
    requires KnownOf(s) == Replay(k, s.log) && Recovers(s) && Enabled(s, a)
    ensures KnownOf(Apply(s, a)) == Replay(k, Apply(s, a).log)
  {
    var log, events, s' := s.log, Events(s, a), Apply(s, a);
    assert s'.log == log + events;
    if a.PublishOta? {
      ObservePublish(s, a);
    } else if a.Suback? || a.RunOnConnect? {
      ObserveSession(s, a);
    } else if a.MainConnects? || a.Connack? || a.Disconnect? || a.RunReconnect? || a.PollAborts? {
      ObserveLink(s, a);
    } else if a.CloudTakesSem? || a.CloudChecksState? || a.PollReturns? || a.PollBreaks? || a.CloudLeaves? {
      ObserveThread(s, a);
    } else if a.RunFota? || a.FotaEvent? || a.RunReboot? {
      ObserveDownload(s, a);
    } else {
      ObserveWork(s, a);
    }
    hide Replay, Observe, KnownOf, Apply, Events, Enabled, Recovers;
    ReplayMore(k, log, events);
  }

  lemma ReplayMore(k: Known, log: seq<Event>, events: seq<Event>)
    requires |events| <= 4 && |events| != 3
    ensures
      var was := Replay(k, log);
      Replay(k, log + events) ==
        if |events| == 0 then was
        else if |events| == 1 then Observe(was, events[0])
        else if |events| == 2 then Observe(Observe(was, events[0]), events[1])
        else Observe(Observe(Observe(Observe(was, events[0]), events[1]), events[2]), events[3])
  {
    hide Replay, Observe;
    if |events| == 0 {
      assert log + events == log;
    } else if |events| == 1 {
      ReplayNext(k, log, events[0]);
      assert events == [events[0]];
    } else if |events| == 2 {
      ReplayTwo(k, log, events[0], events[1]);
      assert events == [events[0], events[1]];
    } else {
      ReplayFour(k, log, events[0], events[1], events[2], events[3]);
      assert events == [events[0], events[1], events[2], events[3]];
    }
  }

  /** In every run the state is what the log tells: no submission is forgotten, and no work runs unasked. */
  lemma {:induction false} StateIsObserved(k: Known, s: State, actions: seq<Action>)
    requires KnownOf(s) == Replay(k, s.log) && Recovers(s) && Legal(s, actions)
    ensures KnownOf(Run(s, actions)) == Replay(k, Run(s, actions).log)
    decreases |actions|
  {
    if actions == [] {
    } else {
      ObserveStep(k, s, actions[0]);
      RecoveryStep(s, actions[0]);
      hide Recovers, Replay, Enabled, Apply, KnownOf;
      StateIsObserved(k, Apply(s, actions[0]), actions[1..]);
    }
  }

  predicate AboutUpdate(e: Event) { e.Accepted? || e.DownloadStarted? || e.DownloadRefused? || e.DownloadEnded? }

  lemma OthersKeepUpdate(k: Known, e: Event)
    requires !AboutUpdate(e)
    ensures Observe(k, e).fw.ota == k.fw.ota
    ensures k.fw.reboot || k.halted ==> Observe(k, e).fw.reboot || Observe(k, e).halted
  {}

  lemma {:induction false} UpdateStateLasts(k: Known, log: seq<Event>, j: nat)
    requires j < |log| && AboutUpdate(log[j]) && forall i :: j < i < |log| ==> !AboutUpdate(log[i])
    ensures
      var e, was, now := log[j], Replay(k, log[..j]), Replay(k, log);
      && now.fw.ota == Observe(was, e).fw.ota
      && (Observe(was, e).fw.reboot || Observe(was, e).halted ==> now.fw.reboot || now.halted)
    decreases |log|
  {
    hide Observe, AboutUpdate;
    var n := |log| - 1;
    if j < n {
      UpdateStateLasts(k, log[..n], j);
      OthersKeepUpdate(Replay(k, log[..n]), log[n]);
      assert log[..n][..j] == log[..j];
    }
  }

  /**
   * In every run, the update state tells the outcome of what happened last to the update: accepted, downloading,
   * finished or failed. Once a download ended either way, the reboot is pending until it comes.
   */
  lemma UpdateStateIs(running: Version, otaData: Version, actions: seq<Action>, j: nat)
    requires Legal(Init(running, otaData), actions)
    requires
      var log := Run(Init(running, otaData), actions).log;
      j < |log| && forall i :: j < i < |log| ==> !AboutUpdate(log[i])
    ensures
      var s := Run(Init(running, otaData), actions);
      && (s.log[j].Accepted? ==> s.fw.ota == Started)
      && (s.log[j].DownloadStarted? ==> s.fw.ota == Downloading)
      && (s.log[j].DownloadRefused? ==> s.fw.ota == Error)
      && (s.log[j] == DownloadEnded(true) ==> s.fw.ota == Done)
      && (s.log[j] == DownloadEnded(false) ==> s.fw.ota == Error)
      && (s.log[j].DownloadEnded? ==> s.fw.reboot || s.halted)
  {
    var boot := Init(running, otaData);
    StateIsObserved(KnownOf(boot), boot, actions);
    var s := Run(boot, actions);
    hide Run, Legal, Replay, Init;
    if AboutUpdate(s.log[j]) {
      UpdateStateLasts(KnownOf(boot), s.log, j);
      ObserveUpdate(Replay(KnownOf(boot), s.log[..j]), s.log[j]);
      hide Observe;
    }
  }

  lemma ObserveUpdate(k: Known, e: Event)
    ensures e.Accepted? ==> Observe(k, e).fw.ota == Started
    ensures e.DownloadStarted? ==> Observe(k, e).fw.ota == Downloading
    ensures e.DownloadRefused? ==> Observe(k, e).fw.ota == Error
    ensures e == DownloadEnded(true) ==> Observe(k, e).fw.ota == Done
    ensures e == DownloadEnded(false) ==> Observe(k, e).fw.ota == Error
    ensures e.DownloadEnded? ==> Observe(k, e).fw.reboot
  {}

  // ---------------------------------------------------------------- answers

  /** What must come of an OTA publish: an upgrade is accepted; all else releases the application, unless one was. */
  function Answer(running: Version, decoded: Option<Version>, accepted: bool): seq<Event> {
    if decoded.Some? && Compare(running, decoded.value) == 1 then [Accepted(decoded.value)]
    else if accepted then []
    else [DoneSubmitted, AppSubscribed, ReadyCallback]
  }

  predicate IsAnswer(e: Event) { e.Accepted? || e.DoneSubmitted? || e.AppSubscribed? || e.ReadyCallback? }

  ghost function AnswerAt(running: Version, log: seq<Event>, j: nat): seq<Event>
    requires j < |log| && log[j].OtaPublish?
  {
    Answer(running, log[j].decoded, UpdateAccepted(log[..j]))
  }

  /** Every OTA publish is directly followed by its answer, and there are no answers but those. */
  ghost predicate Answered(running: Version, log: seq<Event>) {
    && (forall j :: 0 <= j < |log| && log[j].OtaPublish? ==> AnswerAt(running, log, j) <= log[j + 1..])
    && (forall i :: 0 <= i < |log| && IsAnswer(log[i]) ==>
          exists j :: 0 <= j < i && log[j].OtaPublish? && i <= j + |AnswerAt(running, log, j)|)
  }

  lemma AnswerAtPrefix(running: Version, log: seq<Event>, more: seq<Event>, j: nat)
    requires j < |log| && log[j].OtaPublish?
    ensures AnswerAt(running, log + more, j) == AnswerAt(running, log, j)
    ensures AnswerAt(running, log, j) <= log[j + 1..] ==> AnswerAt(running, log, j) <= (log + more)[j + 1..]
  {
    assert (log + more)[..j] == log[..j];
    assert (log + more)[j + 1..] == log[j + 1..] + more;
  }

  /** Events that are neither publishes nor answers may follow, and so may a publish with its answer. */
  lemma AnsweredMore(running: Version, log: seq<Event>, more: seq<Event>)
    requires Answered(running, log)
    requires
      || (forall i :: 0 <= i < |more| ==> !IsAnswer(more[i]) && !more[i].OtaPublish?)
      || (more != [] && more[0].OtaPublish? && more[1..] == Answer(running, more[0].decoded, UpdateAccepted(log)))
    ensures Answered(running, log + more)
  {
    var log', n := log + more, |log|;
    AnswersOnly(running, if more != [] && more[0].OtaPublish? then more[0].decoded else None, UpdateAccepted(log));
    hide Answer, UpdateAccepted;
    assert log'[..n] == log;
    forall j | n < j < |log'|
      ensures !log'[j].OtaPublish?
    {
      assert log'[j] == more[j - n] == more[1..][j - n - 1];
    }
    forall j | 0 <= j < |log'| && log'[j].OtaPublish?
      ensures AnswerAt(running, log', j) <= log'[j + 1..]
    {
      if j < n {
        AnswerAtPrefix(running, log, more, j);
      } else {
        assert log'[n + 1..] == more[1..];
      }
    }
    forall i | 0 <= i < |log'| && IsAnswer(log'[i])
      ensures exists j :: 0 <= j < i && log'[j].OtaPublish? && i <= j + |AnswerAt(running, log', j)|
    {
      if i < n {
        var j :| 0 <= j < i && log[j].OtaPublish? && i <= j + |AnswerAt(running, log, j)|;
        AnswerAtPrefix(running, log, more, j);
        assert log'[j].OtaPublish?;
      } else {
        assert log'[i] == more[i - n];
        assert log'[n].OtaPublish?;
      }
    }
  }

  lemma AnswersOnly(running: Version, decoded: Option<Version>, accepted: bool)
    ensures forall i :: 0 <= i < |Answer(running, decoded, accepted)| ==>
      IsAnswer(Answer(running, decoded, accepted)[i]) && !Answer(running, decoded, accepted)[i].OtaPublish?
  {}

  lemma AnsweredStep(s: State, a: Action)
    requires OtaSafe(s) && Enabled(s, a) && Answered(s.fw.running, s.log)
    ensures Answered(s.fw.running, Apply(s, a).log) && Apply(s, a).fw.running == s.fw.running
  {
    var events := Events(s, a);
    hide Answered, Compare, UpdateAccepted, OtaOrdered, AllUpgrades, ReadyCalled;
    if a.PublishOta? {
      assert events[1..] == Answer(s.fw.running, a.decoded, UpdateAccepted(s.log));
    }
    AnsweredMore(s.fw.running, s.log, events);
  }

  lemma {:induction false} AnsweredRun(s: State, actions: seq<Action>)
    requires Safe(s) && Answered(s.fw.running, s.log) && Legal(s, actions)
    ensures Answered(s.fw.running, Run(s, actions).log)
    decreases |actions|
  {
    if actions == [] {
    } else {
      AnsweredStep(s, actions[0]);
      SafeStep(s, actions[0]);
      hide Safe, Answered, Enabled, Apply;
      AnsweredRun(Apply(s, actions[0]), actions[1..]);
    }
  }

  /**
   * In every run, an OTA publish is accepted exactly if it names an upgrade, and otherwise releases the application
   * exactly if no update was accepted before; both happen at once and at no other time.
   */
  lemma PublishesAreAnswered(running: Version, otaData: Version, actions: seq<Action>)
    requires Legal(Init(running, otaData), actions)
    ensures Answered(running, Run(Init(running, otaData), actions).log)
  {
    InitIsSafe(running, otaData);
    AnsweredRun(Init(running, otaData), actions);
  }

  // ---------------------------------------------------------------- the first check

  /** What must directly follow event `j`: a subscription after a connection, a request after its acknowledgment. */
  ghost predicate FollowedUp(log: seq<Event>, j: nat)
    requires j < |log|
  {
    && (log[j].ConnectHandled? && !UpdateAccepted(log[..j]) ==> j + 1 < |log| && log[j + 1].OtaSubscribed?)
    && (log[j].SubAck? && log[j].id == CurrentId(log[..j]) && !OtaPublished(log[..j]) ==>
          j + 1 < |log| && log[j + 1].RequestSubmitted?)
  }

  ghost predicate AllFollowedUp(log: seq<Event>) { forall j: nat :: j < |log| ==> FollowedUp(log, j) }

  lemma FollowedUpMore(log: seq<Event>, more: seq<Event>)
    requires AllFollowedUp(log)
    requires forall i :: 1 <= i < |more| ==> !more[i].ConnectHandled? && !more[i].SubAck?
    requires more != [] && more[0].ConnectHandled? && !UpdateAccepted(log) ==> 1 < |more| && more[1].OtaSubscribed?
    requires more != [] && more[0].SubAck? && more[0].id == CurrentId(log) && !OtaPublished(log) ==>
      1 < |more| && more[1].RequestSubmitted?
    ensures AllFollowedUp(log + more)
  {
    var log', n := log + more, |log|;
    hide CurrentId, OtaPublished, UpdateAccepted;
    forall j: nat | j < |log'|
      ensures FollowedUp(log', j)
    {
      if j < n {
        assert FollowedUp(log, j);
        assert log'[..j] == log[..j];
      } else {
        assert log'[..n] == log;
        assert log'[j] == more[j - n];
      }
    }
  }

  lemma FollowUpStep(s: State, a: Action)
    requires Safe(s) && AllFollowedUp(s.log) && Enabled(s, a)
    ensures AllFollowedUp(Apply(s, a).log)
  {
    hide AllFollowedUp, Compare, CurrentId, OtaPublished, UpdateAccepted, OtaOrdered, AllUpgrades, ReadyCalled;
    hide HandshakeOrdered;
    FollowedUpMore(s.log, Events(s, a));
  }

  /** A check that was asked for is being watched, unless it was answered or the device has stopped. */
  ghost predicate Watched(s: State) {
    RequestSubmitted in s.log ==> s.mqtt.watch || OtaPublished(s.log) || s.halted
  }

  lemma RequestsAreWatched(s: State, a: Action)
    ensures forall i :: 0 <= i < |Events(s, a)| && Events(s, a)[i].RequestSubmitted? ==> Apply(s, a).mqtt.watch
  {
    hide FirmwareStep, LinkStep, MainStep, Halts, Compare;
  }

  /** Watching ends only with the work item, which finds an answer or stops the device. */
  lemma WatchEnds(s: State, a: Action)
    requires Enabled(s, a) && s.mqtt.watch
    ensures Apply(s, a).mqtt.watch || s.mqtt.checked || Apply(s, a).halted
  {
    hide FirmwareStep, LinkStep, MainStep, Events, Compare;
  }

  lemma WatchedStep(s: State, a: Action)
    requires Handshake(s) && Watched(s) && Enabled(s, a)
    ensures Watched(Apply(s, a))
  {
    var s', events := Apply(s, a), Events(s, a);
    assert s'.log == s.log + events && (s.halted ==> s'.halted);
    HandshakeStep(s, a);
    OneWayStep(s, a);
    RequestsAreWatched(s, a);
    if s.mqtt.watch {
      WatchEnds(s, a);
    }
    hide OtaPublished, CurrentId, HandshakeOrdered, Apply, Events, Enabled;
  }

  lemma {:induction false} CheckRun(s: State, actions: seq<Action>)
    requires Safe(s) && AllFollowedUp(s.log) && Watched(s) && Legal(s, actions)
    ensures AllFollowedUp(Run(s, actions).log) && Watched(Run(s, actions))
    decreases |actions|
  {
    if actions == [] {
    } else {
      FollowUpStep(s, actions[0]);
      WatchedStep(s, actions[0]);
      SafeStep(s, actions[0]);
      hide Safe, AllFollowedUp, Watched, Enabled, Apply;
      CheckRun(Apply(s, actions[0]), actions[1..]);
    }
  }

  /**
   * In every run: while no update is accepted, each connection is followed by a subscription to the OTA topic; the
   * acknowledgment of the current one is followed by a request, unless an answer was seen; and a request is watched
   * until it is answered, so a silent server stops the device.
   */
  lemma ChecksAreMade(running: Version, otaData: Version, actions: seq<Action>)
    requires Legal(Init(running, otaData), actions)
    ensures AllFollowedUp(Run(Init(running, otaData), actions).log)
    ensures
      var s := Run(Init(running, otaData), actions);
      RequestSubmitted in s.log ==> s.mqtt.watch || OtaPublished(s.log) || s.halted
  {
    InitIsSafe(running, otaData);
    CheckRun(Init(running, otaData), actions);
  }

  /** A server that does not answer the first check stops the device. */
  lemma NoResponseIsReachable(running: Version, otaData: Version, id: nat) returns (actions: seq<Action>, s: State)
    requires id < UINT16_MODULUS
    ensures Reached(Init(running, otaData), actions, s)
    ensures s.log == CheckLog(id) + [NoResponseAssert] && s.halted
  {
    var boot := Init(running, otaData);
    actions, s := CheckIsReachable(running, otaData, id);
    assert s.mqtt.watch by {
      WatchedAfterCheck(running, otaData, actions, s, id);
    }
    hide Reached, Compare, CheckLog, Init;
    actions, s := Then(boot, actions, s, RunCheckSubscribed);
  }

  lemma WatchedAfterCheck(running: Version, otaData: Version, actions: seq<Action>, s: State, id: nat)
    requires Reached(Init(running, otaData), actions, s) && s.log == CheckLog(id) && !s.halted && !s.mqtt.checked
    ensures s.mqtt.watch
  {
    InitIsSafe(running, otaData);
    ChecksAreMade(running, otaData, actions);
    RunsAreSafe(Init(running, otaData), actions);
    assert s.log[5] == RequestSubmitted;
  }

  /** A whole update: offered, accepted, downloaded, and the device restarted. */
  lemma UpdateIsReachable(running: Version, newer: Version, otaData: Version, id: nat)
    returns (actions: seq<Action>, s: State)
    requires Compare(running, newer) == 1 && id < UINT16_MODULUS
    ensures Reached(Init(running, otaData), actions, s)
    ensures s.halted && s.fw.ota == Done && s.log == CheckLog(id) +
      [OtaPublish(Some(newer), newer), Accepted(newer), DownloadStarted(newer), DownloadEnded(true), Reboot]
  {
    var boot, log, recent := Init(running, otaData), CheckLog(id), [];
    actions, s := CheckIsReachable(running, otaData, id);
    hide Reached, Compare, CheckLog, Init;
    assert s.log == log + recent;
    actions, s, recent := ThenLog(boot, actions, s, PublishOta(Some(newer), newer), log, recent);
    actions, s, recent := ThenLog(boot, actions, s, RunFota(true), log, recent);
    assert recent == [OtaPublish(Some(newer), newer), Accepted(newer), DownloadStarted(newer)];
    actions, s, recent := ThenLog(boot, actions, s, FotaEvent(true), log, recent);
    actions, s, recent := ThenLog(boot, actions, s, RunReboot, log, recent);
  }

  // ---------------------------------------------------------------- the cloud thread

  /** How many turns the thread takes back to its semaphore while the client is disconnected. */
  function TurnsHome(pc: ThreadPc): nat {
    match pc
    case WaitSem => 0
    case LoopHead => 1
    case Leaving => 1
    case Polling => 2
  }

  predicate ThreadStep(a: Action) {
    a.CloudTakesSem? || a.CloudChecksState? || a.PollReturns? || a.PollBreaks? || a.PollAborts? || a.CloudLeaves?
  }

  /**
   * While disconnected, each turn takes the thread closer to its semaphore, which only a connection gives; and it
   * enters `poll` only from its loop head and only while connected.
   */
  lemma ThreadComesHome(s: State, a: Action)
    requires Enabled(s, a)
    ensures
      var s' := Apply(s, a);
      && (ThreadStep(a) && !s.link.connected && s.link.pc != WaitSem ==> TurnsHome(s'.link.pc) < TurnsHome(s.link.pc))
      && (s'.link.sem <==> (s.link.sem && a != CloudTakesSem) || (s'.link.connected && !s.link.connected)
                           || (a == MainConnects(true)))
      && (s.link.pc != Polling && s'.link.pc == Polling ==> s.link.pc == LoopHead && s.link.connected)
      && (!ThreadStep(a) ==> s'.link.pc == s.link.pc)
      && (s.link.pc == WaitSem && s'.link.pc != WaitSem ==> s.link.sem && s'.link.pc == LoopHead)
  {
    hide FirmwareStep, SessionStep, MainStep, Events, Halts, Compare;
  }
}
