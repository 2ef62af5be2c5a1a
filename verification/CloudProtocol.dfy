/**
 * The cloud client as a state machine. The main thread, the cloud thread, two work queues, the MQTT client and the
 * firmware downloader share a handful of flags; each callback, work item and loop turn is one atomic step, and the
 * environment chooses which step comes next.
 */
module CloudProtocol {
  import opened Options
  import opened Version

  datatype OtaState = Ready | Started | Downloading | Done | Error | RebootDue | Rebooting

  /** The cloud thread waits for its semaphore, is at the head of its poll loop, in `poll`, or leaves after an abort. */
  datatype ThreadPc = WaitSem | LoopHead | Polling | Leaving

  datatype MainPc = Booting | WaitReady | InSetup

  /**
   * What an observer sees, in order. `OtaPublish` carries the outcome of decoding and what that left in `ota_data`;
   * `BootFailed`, `NoResponseAssert`, `DownloadRefused` and `Reboot` end the run.
   */
  datatype Event =
    | BootFailed
    | Connected
    | Disconnected
    | Connacked
    | ConnectHandled
    | OtaSubscribed(id: nat)
    | SubAck(id: nat)
    | RequestSubmitted
    | CheckPublished
    | CheckRefused
    | OtaPublish(decoded: Option<Version>, stored: Version)
    | Accepted(version: Version)
    | DoneSubmitted
    | AppSubscribed
    | ReadyCallback
    | DonePublished
    | DoneRefused
    | SetupEntered
    | DownloadStarted(version: Version)
    | DownloadRefused
    | DownloadEnded(finished: bool)
    | CheckPassed
    | NoResponseAssert
    | Reboot

  /** Firmware update: `ota_state_s`, `ota_data`, and the work and download that follow an accepted manifest. */
  datatype Firmware =
    Firmware(running: Version, ota: OtaState, data: Version, fota: bool, downloading: bool, reboot: bool)

  /** MQTT session: the first check for an update, and the work items of the application queue. */
  datatype Session = Session(checked: bool, subId: nat, onConnect: bool, request: bool, done: bool, watch: bool)

  /** Connection: `cloud_state_s`, the pending reconnect, and the cloud thread with its semaphore. */
  datatype Link = Link(connected: bool, reconnect: bool, sem: bool, pc: ThreadPc)

  /** The main thread and its semaphore. */
  datatype MainThread = MainThread(pc: MainPc, sem: bool)

  datatype State = State(fw: Firmware, mqtt: Session, link: Link, main: MainThread, halted: bool, log: seq<Event>)

  const UINT16_MODULUS := 0x1_0000

  function Init(running: Version, otaData: Version): State {
    State(Firmware(running, Ready, otaData, false, false, false),
          Session(false, 0, false, false, false, false),
          Link(false, false, false, WaitSem),
          MainThread(Booting, false), false, [])
  }

  datatype Action =
    | MainConnects(ok: bool)
    | MainTakesSem
    | Connack(ok: bool)
    | Disconnect
    | Suback(ok: bool, id: nat)
    | PublishOta(decoded: Option<Version>, residue: Version)
    | RunOnConnect(id: nat)
    | RunOtaRequest
    | RunOtaDone
    | RunCheckSubscribed
    | RunFota(ok: bool)
    | FotaEvent(finished: bool)
    | RunReboot
    | RunReconnect(ok: bool)
    | CloudTakesSem
    | CloudChecksState
    | PollReturns
    | PollBreaks
    | PollAborts
    | CloudLeaves

  /** Which steps can come next. MQTT events need a started client; downloads report only while running. */
  predicate Enabled(s: State, a: Action) {
    && !s.halted
    && match a
       case MainConnects(_) => s.main.pc == Booting
       case MainTakesSem => s.main.pc == WaitReady && s.main.sem
       case Connack(_) => s.main.pc != Booting
       case Disconnect => s.main.pc != Booting
       case Suback(_, id) => s.main.pc != Booting && id < UINT16_MODULUS
       case PublishOta(_, _) => s.main.pc != Booting
       case RunOnConnect(id) => s.mqtt.onConnect && id < UINT16_MODULUS
       case RunOtaRequest => s.mqtt.request
       case RunOtaDone => s.mqtt.done
       case RunCheckSubscribed => s.mqtt.watch
       case RunFota(_) => s.fw.fota
       case FotaEvent(_) => s.fw.downloading
       case RunReboot => s.fw.reboot
       case RunReconnect(_) => s.link.reconnect
       case CloudTakesSem => s.link.pc == WaitSem && s.link.sem
       case CloudChecksState => s.link.pc == LoopHead
       case PollReturns => s.link.pc == Polling
       case PollBreaks => s.link.pc == Polling
       case PollAborts => s.link.pc == Polling
       case CloudLeaves => s.link.pc == Leaving
  }

  predicate IsUpgrade(fw: Firmware, decoded: Option<Version>) {
    decoded.Some? && Compare(fw.running, decoded.value) == 1
  }

  /** What is left in `ota_data`: the manifest, or whatever a failed decoding leaves there. */
  function Stored(decoded: Option<Version>, residue: Version): Version {
    if decoded.Some? then decoded.value else residue
  }

  function FirmwareStep(fw: Firmware, a: Action): Firmware {
    match a
    case PublishOta(decoded, residue) =>
      if IsUpgrade(fw, decoded) then fw.(data := Stored(decoded, residue), ota := Started, fota := true)
      else fw.(data := Stored(decoded, residue))
    case RunFota(ok) =>
      if ok then fw.(fota := false, ota := Downloading, downloading := true) else fw.(fota := false, ota := Error)
    case FotaEvent(finished) => fw.(downloading := false, ota := if finished then Done else Error, reboot := true)
    case RunReboot => fw.(reboot := false)
    case _ => fw
  }

  function SessionStep(mqtt: Session, fw: Firmware, a: Action): Session {
    match a
    case Connack(ok) => if ok then mqtt.(onConnect := true) else mqtt
    case Suback(ok, id) =>
      if ok && mqtt.subId == id && !mqtt.checked then mqtt.(request := true, watch := true) else mqtt
    case PublishOta(decoded, _) =>
      if !IsUpgrade(fw, decoded) && fw.ota == Ready then mqtt.(checked := true, done := true)
      else mqtt.(checked := true)
    case RunOnConnect(id) =>
      if fw.ota == Ready then mqtt.(onConnect := false, subId := id) else mqtt.(onConnect := false)
    case RunOtaRequest => mqtt.(request := false)
    case RunOtaDone => mqtt.(done := false)
    case RunCheckSubscribed => mqtt.(watch := false)
    case _ => mqtt
  }

  /** `cloud_state_s` drops to disconnected and the application is told, which schedules a reconnect. */
  function Dropped(link: Link): Link { link.(connected := false, reconnect := true) }

  function LinkStep(link: Link, a: Action): Link {
    match a
    case MainConnects(ok) => if ok then link.(connected := true, sem := true) else link
    case Connack(ok) => if ok then link else Dropped(link)
    case Disconnect => Dropped(link)
    case RunReconnect(ok) =>
      // While connected, the attempt is refused with an error that is not recognised as harmless, and is repeated.
      if link.connected || !ok then link else link.(reconnect := false, connected := true, sem := true)
    case CloudTakesSem => link.(sem := false, pc := LoopHead)
    case CloudChecksState => link.(pc := if link.connected then Polling else WaitSem)
    case PollReturns => link.(pc := LoopHead)
    case PollBreaks => link.(pc := WaitSem)
    case PollAborts => Dropped(link).(pc := Leaving)
    case CloudLeaves => link.(pc := WaitSem)
    case _ => link
  }

  function MainStep(main: MainThread, fw: Firmware, a: Action): MainThread {
    match a
    case MainConnects(ok) => if ok then main.(pc := WaitReady) else main
    case MainTakesSem => main.(pc := InSetup, sem := false)
    case PublishOta(decoded, _) => if !IsUpgrade(fw, decoded) && fw.ota == Ready then main.(sem := true) else main
    case _ => main
  }

  /** A message is given to the MQTT client only while connected; otherwise it is refused, and lost. */
  function CheckOutcome(link: Link): Event { if link.connected then CheckPublished else CheckRefused }

  function DoneOutcome(link: Link): Event { if link.connected then DonePublished else DoneRefused }

  function Events(s: State, a: Action): seq<Event> {
    match a
    case MainConnects(ok) => [if ok then Connected else BootFailed]
    case MainTakesSem => [SetupEntered]
    case Connack(ok) => [if ok then Connacked else Disconnected]
    case Disconnect => [Disconnected]
    case Suback(ok, id) =>
      if !ok then [] else if s.mqtt.subId == id && !s.mqtt.checked then [SubAck(id), RequestSubmitted] else [SubAck(id)]
    case PublishOta(decoded, residue) =>
      var stored := Stored(decoded, residue);
      if IsUpgrade(s.fw, decoded) then [OtaPublish(decoded, stored), Accepted(stored)]
      else if s.fw.ota == Ready then [OtaPublish(decoded, stored), DoneSubmitted, AppSubscribed, ReadyCallback]
      else [OtaPublish(decoded, stored)]
    case RunOnConnect(id) => if s.fw.ota == Ready then [ConnectHandled, OtaSubscribed(id)] else [ConnectHandled]
    case RunOtaRequest => [CheckOutcome(s.link)]
    case RunOtaDone => [DoneOutcome(s.link)]
    case RunCheckSubscribed => [if s.mqtt.checked then CheckPassed else NoResponseAssert]
    case RunFota(ok) => [if ok then DownloadStarted(s.fw.data) else DownloadRefused]
    case FotaEvent(finished) => [DownloadEnded(finished)]
    case RunReboot => [Reboot]
    case RunReconnect(ok) => if !s.link.connected && ok then [Connected] else []
    case PollAborts => [Disconnected]
    case _ => []
  }

  /** The steps after which the device restarts. */
  predicate Halts(s: State, a: Action) {
    match a
    case MainConnects(ok) => !ok
    case RunCheckSubscribed => !s.mqtt.checked
    case RunFota(ok) => !ok
    case RunReboot => true
    case _ => false
  }

  function Apply(s: State, a: Action): State {
    State(FirmwareStep(s.fw, a), SessionStep(s.mqtt, s.fw, a), LinkStep(s.link, a), MainStep(s.main, s.fw, a),
          s.halted || Halts(s, a), s.log + Events(s, a))
  }

  ghost predicate Legal(s: State, actions: seq<Action>)
    decreases |actions|
  {
    actions == [] || (Enabled(s, actions[0]) && Legal(Apply(s, actions[0]), actions[1..]))
  }

  ghost function Run(s: State, actions: seq<Action>): State
    requires Legal(s, actions)
    decreases |actions|
  {
    if actions == [] then s else Run(Apply(s, actions[0]), actions[1..])
  }

  ghost predicate Reached(boot: State, actions: seq<Action>, s: State) {
    Legal(boot, actions) && Run(boot, actions) == s
  }

  lemma {:induction false} ReachedNext(boot: State, actions: seq<Action>, s: State, a: Action)
    requires Reached(boot, actions, s) && Enabled(s, a)
    ensures Reached(boot, actions + [a], Apply(s, a))
    decreases |actions|
  {
    hide Enabled, Apply;
    var s' := Apply(s, a);
    if actions == [] {
      assert actions + [a] == [a] && [a][1..] == [];
      assert Legal(s', []) && Run(s', []) == s';
    } else {
      ReachedNext(Apply(boot, actions[0]), actions[1..], s, a);
      assert (actions + [a])[1..] == actions[1..] + [a];
    }
    assert Legal(boot, actions + [a]) && Run(boot, actions + [a]) == s';
  }

  /** One step more of a run. */
  lemma Then(boot: State, actions: seq<Action>, s: State, a: Action) returns (actions': seq<Action>, s': State)
    requires Reached(boot, actions, s) && Enabled(s, a)
    ensures actions' == actions + [a] && s' == Apply(s, a) && Reached(boot, actions', s')
  {
    ReachedNext(boot, actions, s, a);
    return actions + [a], Apply(s, a);
  }

  // ---------------------------------------------------------------- firmware updates

  /** A decision that an accepted update must rule out from then on. */
  predicate ReleasesApplication(e: Event) {
    e.DoneSubmitted? || e.AppSubscribed? || e.ReadyCallback? || e.OtaSubscribed?
  }

  ghost predicate UpdateAccepted(log: seq<Event>) { exists i :: 0 <= i < |log| && log[i].Accepted? }

  ghost predicate OtaPublished(log: seq<Event>) { exists i :: 0 <= i < |log| && log[i].OtaPublish? }

  ghost predicate ReadyCalled(log: seq<Event>) { exists i :: 0 <= i < |log| && log[i].ReadyCallback? }

  /** No application release after an accepted update, and no download before one. */
  ghost predicate OtaOrdered(log: seq<Event>) {
    && (forall i, j :: 0 <= i < j < |log| && log[i].Accepted? ==> !ReleasesApplication(log[j]))
    && (forall j :: 0 <= j < |log| && log[j].DownloadStarted? ==> UpdateAccepted(log[..j]))
  }

  ghost predicate AllUpgrades(running: Version, log: seq<Event>) {
    forall i :: 0 <= i < |log| && log[i].Accepted? ==> Compare(running, log[i].version) == 1
  }

  ghost predicate OtaSafe(s: State) {
    && (UpdateAccepted(s.log) <==> s.fw.ota != Ready)
    && (s.fw.fota || s.fw.downloading ==> s.fw.ota != Ready)
    && (s.fw.ota != Ready ==> s.main.pc != Booting)
    && OtaOrdered(s.log)
    && AllUpgrades(s.fw.running, s.log)
    && (s.main.sem || s.main.pc == InSetup ==> ReadyCalled(s.log))
  }

  lemma AppendEvent(running: Version, log: seq<Event>, e: Event)
    requires OtaOrdered(log) && AllUpgrades(running, log)
    requires ReleasesApplication(e) ==> !UpdateAccepted(log)
    requires e.DownloadStarted? ==> UpdateAccepted(log)
    requires e.Accepted? ==> Compare(running, e.version) == 1
    ensures OtaOrdered(log + [e]) && AllUpgrades(running, log + [e])
    ensures UpdateAccepted(log + [e]) <==> UpdateAccepted(log) || e.Accepted?
    ensures ReadyCalled(log + [e]) <==> ReadyCalled(log) || e.ReadyCallback?
  {
    var log' := log + [e];
    forall j | 0 <= j < |log'| && log'[j].DownloadStarted?
      ensures UpdateAccepted(log'[..j])
    {
      assert log'[..j] == log[..j];
      assert log[..|log|] == log;
    }
    if UpdateAccepted(log) {
      var i :| 0 <= i < |log| && log[i].Accepted?;
      assert log'[i].Accepted?;
    }
    if ReadyCalled(log) {
      var i :| 0 <= i < |log| && log[i].ReadyCallback?;
      assert log'[i].ReadyCallback?;
    }
    assert log'[|log|] == e;
  }

  lemma AppendAccepted(running: Version, log: seq<Event>, v: Version)
    requires OtaOrdered(log) && AllUpgrades(running, log) && Compare(running, v) == 1
    ensures
      var log' := log + [OtaPublish(Some(v), v), Accepted(v)];
      && OtaOrdered(log') && AllUpgrades(running, log') && UpdateAccepted(log')
      && (ReadyCalled(log') <==> ReadyCalled(log))
  {
    hide OtaOrdered, AllUpgrades, UpdateAccepted, ReadyCalled, Compare;
    AppendEvent(running, log, OtaPublish(Some(v), v));
    AppendEvent(running, log + [OtaPublish(Some(v), v)], Accepted(v));
    assert log + [OtaPublish(Some(v), v)] + [Accepted(v)] == log + [OtaPublish(Some(v), v), Accepted(v)];
  }

  lemma AppendRelease(running: Version, log: seq<Event>, e: Event)
    requires OtaOrdered(log) && AllUpgrades(running, log) && !UpdateAccepted(log) && e.OtaPublish?
    ensures
      var log' := log + [e, DoneSubmitted, AppSubscribed, ReadyCallback];
      OtaOrdered(log') && AllUpgrades(running, log') && !UpdateAccepted(log') && ReadyCalled(log')
  {
    hide OtaOrdered, AllUpgrades, UpdateAccepted, ReadyCalled;
    AppendEvent(running, log, e);
    AppendEvent(running, log + [e], DoneSubmitted);
    AppendEvent(running, log + [e] + [DoneSubmitted], AppSubscribed);
    AppendEvent(running, log + [e] + [DoneSubmitted] + [AppSubscribed], ReadyCallback);
    assert log + [e] + [DoneSubmitted] + [AppSubscribed] + [ReadyCallback]
        == log + [e, DoneSubmitted, AppSubscribed, ReadyCallback];
  }

  lemma AppendPair(running: Version, log: seq<Event>, d: Event, e: Event)
    requires OtaOrdered(log) && AllUpgrades(running, log)
    requires !d.Accepted? && !d.ReadyCallback? && !d.DownloadStarted? && !ReleasesApplication(d)
    requires !e.Accepted? && !e.ReadyCallback? && !e.DownloadStarted?
    requires ReleasesApplication(e) ==> !UpdateAccepted(log)
    ensures
      var log' := log + [d, e];
      && OtaOrdered(log') && AllUpgrades(running, log')
      && (UpdateAccepted(log') <==> UpdateAccepted(log)) && (ReadyCalled(log') <==> ReadyCalled(log))
  {
    hide OtaOrdered, AllUpgrades, UpdateAccepted, ReadyCalled;
    AppendEvent(running, log, d);
    AppendEvent(running, log + [d], e);
    assert log + [d] + [e] == log + [d, e];
  }

  /** Every step keeps updates safe. */
  lemma OtaStep(s: State, a: Action)
    requires OtaSafe(s) && Enabled(s, a)
    ensures OtaSafe(Apply(s, a))
  {
    var running, log, events := s.fw.running, s.log, Events(s, a);
    hide OtaOrdered, AllUpgrades, UpdateAccepted, ReadyCalled, Compare;
    if a.PublishOta? {
      var stored := Stored(a.decoded, a.residue);
      if IsUpgrade(s.fw, a.decoded) {
        AppendAccepted(running, log, stored);
      } else if s.fw.ota == Ready {
        AppendRelease(running, log, OtaPublish(a.decoded, stored));
      } else {
        AppendEvent(running, log, OtaPublish(a.decoded, stored));
      }
    } else {
      assert |events| <= 2;
      if |events| == 0 {
        assert log + events == log;
      } else if |events| == 1 {
        AppendEvent(running, log, events[0]);
      } else {
        AppendPair(running, log, events[0], events[1]);
      }
    }
  }

  // ---------------------------------------------------------------- the first check for an update

  /** The id of the latest subscription to the OTA topic. */
  ghost function CurrentId(log: seq<Event>): nat {
    if log == [] then 0
    else if log[|log| - 1].OtaSubscribed? then log[|log| - 1].id
    else CurrentId(log[..|log| - 1])
  }

  /**
   * Each check request directly follows the acknowledgment of the current OTA subscription, and neither a request nor
   * the no-response assertion ever comes after an OTA publish was handled.
   */
  ghost predicate HandshakeOrdered(log: seq<Event>) {
    && (forall j :: 0 <= j < |log| && log[j].RequestSubmitted? ==>
          0 < j && log[j - 1] == SubAck(CurrentId(log[..j])) && !OtaPublished(log[..j]))
    && (forall j :: 0 <= j < |log| && log[j].NoResponseAssert? ==> !OtaPublished(log[..j]))
  }

  ghost predicate Handshake(s: State) {
    && (s.mqtt.checked <==> OtaPublished(s.log))
    && s.mqtt.subId == CurrentId(s.log)
    && HandshakeOrdered(s.log)
  }

  lemma AppendId(log: seq<Event>, e: Event)
    ensures CurrentId(log + [e]) == if e.OtaSubscribed? then e.id else CurrentId(log)
  {
    assert (log + [e])[..|log|] == log;
  }

  lemma AppendHandshake(log: seq<Event>, e: Event)
    requires HandshakeOrdered(log)
    requires e.RequestSubmitted? ==> log != [] && log[|log| - 1] == SubAck(CurrentId(log)) && !OtaPublished(log)
    requires e.NoResponseAssert? ==> !OtaPublished(log)
    ensures HandshakeOrdered(log + [e])
    ensures OtaPublished(log + [e]) <==> OtaPublished(log) || e.OtaPublish?
    ensures CurrentId(log + [e]) == if e.OtaSubscribed? then e.id else CurrentId(log)
  {
    AppendId(log, e);
    AppendPublished(log, e);
    hide CurrentId, OtaPublished;
    var log' := log + [e];
    forall j | 0 <= j < |log'|
      ensures log'[..j] == (if j < |log| then log[..j] else log)
      ensures log'[j] == if j < |log| then log[j] else e
    {}
    forall j | 0 <= j < |log'| && log'[j].RequestSubmitted?
      ensures 0 < j && log'[j - 1] == SubAck(CurrentId(log'[..j])) && !OtaPublished(log'[..j])
    {
      if j < |log| {
        assert log[j].RequestSubmitted?;
      }
    }
    forall j | 0 <= j < |log'| && log'[j].NoResponseAssert?
      ensures !OtaPublished(log'[..j])
    {
      if j < |log| {
        assert log[j].NoResponseAssert?;
      }
    }
  }

  lemma AppendPublished(log: seq<Event>, e: Event)
    ensures OtaPublished(log + [e]) <==> OtaPublished(log) || e.OtaPublish?
  {
    if OtaPublished(log) {
      var i :| 0 <= i < |log| && log[i].OtaPublish?;
      assert (log + [e])[i].OtaPublish?;
    }
    assert (log + [e])[|log|] == e;
  }

  lemma AppendAnswer(log: seq<Event>, e: Event, rest: seq<Event>)
    requires HandshakeOrdered(log) && e.OtaPublish?
    requires |rest| <= 3 && forall i :: 0 <= i < |rest| ==>
      rest[i].Accepted? || rest[i].DoneSubmitted? || rest[i].AppSubscribed? || rest[i].ReadyCallback?
    ensures
      var log' := log + [e] + rest;
      HandshakeOrdered(log') && OtaPublished(log') && CurrentId(log') == CurrentId(log)
    decreases |rest|
  {
    hide HandshakeOrdered, OtaPublished, CurrentId;
    if rest == [] {
      AppendHandshake(log, e);
      assert log + [e] + rest == log + [e];
    } else {
      var n := |rest| - 1;
      AppendAnswer(log, e, rest[..n]);
      AppendHandshake(log + [e] + rest[..n], rest[n]);
      assert log + [e] + rest[..n] + [rest[n]] == log + [e] + rest;
    }
  }

  lemma HandshakeStep(s: State, a: Action)
    requires Handshake(s) && Enabled(s, a)
    ensures Handshake(Apply(s, a))
  {
    var log, events := s.log, Events(s, a);
    hide HandshakeOrdered, OtaPublished, CurrentId, Compare;
    if a.PublishOta? {
      AppendAnswer(log, events[0], events[1..]);
      assert log + [events[0]] + events[1..] == log + events;
    } else {
      assert |events| <= 2;
      if |events| == 0 {
        assert log + events == log;
      } else {
        AppendHandshake(log, events[0]);
        if |events| == 2 {
          AppendHandshake(log + [events[0]], events[1]);
          assert log + [events[0]] + [events[1]] == log + events;
        }
      }
    }
  }

  /** The watchdog work halts the device exactly when no OTA publish has been handled since boot. */
  lemma NoResponseIff(s: State)
    requires Handshake(s) && Enabled(s, RunCheckSubscribed)
    ensures Apply(s, RunCheckSubscribed).halted <==> !OtaPublished(s.log)
  {}

  // ---------------------------------------------------------------- connection

  /** Once `main` has connected, the client is connected or a reconnect is pending, never both. */
  ghost predicate Recovers(s: State) {
    if s.main.pc == Booting then s.link == Link(false, false, false, WaitSem)
    else s.link.connected <==> !s.link.reconnect
  }

  /** While connected, the cloud thread is in its poll loop or free to enter it. */
  ghost predicate Served(s: State) {
    s.link.connected ==> s.link.pc == LoopHead || s.link.pc == Polling || s.link.sem
  }

  lemma RecoveryStep(s: State, a: Action)
    requires Recovers(s) && Enabled(s, a)
    ensures Recovers(Apply(s, a))
  {
    hide FirmwareStep, SessionStep, Events, Compare, Halts;
  }

  /** Every step keeps the connection served, except leaving the poll loop while still connected and not signalled. */
  lemma ServedStepIff(s: State, a: Action)
    requires Served(s) && Enabled(s, a)
    ensures Served(Apply(s, a)) <==> !(a == PollBreaks && s.link.connected && !s.link.sem)
  {
    hide FirmwareStep, SessionStep, MainStep, Events, Compare, Halts;
  }

  /** Connected, but nobody reads what the broker sends. */
  ghost predicate Deaf(s: State) {
    s.main.pc != Booting && s.link.connected && s.link.pc == WaitSem && !s.link.sem
  }

  /** Only a disconnect event ends that: the reconnect work does not run, and the cloud thread keeps waiting. */
  lemma DeafStep(s: State, a: Action)
    requires Deaf(s) && Recovers(s) && Enabled(s, a)
    ensures Deaf(Apply(s, a)) <==> a != Disconnect && a != Connack(false)
  {
    hide FirmwareStep, SessionStep, Events, Compare, Halts;
  }

  lemma {:induction false} DeafRun(s: State, actions: seq<Action>)
    requires Deaf(s) && Recovers(s) && Legal(s, actions)
    requires forall i :: 0 <= i < |actions| ==> actions[i] != Disconnect && actions[i] != Connack(false)
    ensures Deaf(Run(s, actions)) && Recovers(Run(s, actions))
    decreases |actions|
  {
    if actions == [] {
    } else {
      DeafStep(s, actions[0]);
      RecoveryStep(s, actions[0]);
      hide Deaf, Recovers, Enabled, Apply;
      DeafRun(Apply(s, actions[0]), actions[1..]);
    }
  }

  /** A failing `poll` makes a freshly connected device deaf. */
  lemma DeafIsReachable(running: Version, otaData: Version) returns (actions: seq<Action>, s: State)
    ensures actions == [MainConnects(true), CloudTakesSem, CloudChecksState, PollBreaks]
    ensures Reached(Init(running, otaData), actions, s) && Deaf(s)
  {
    var boot := Init(running, otaData);
    actions, s := [], boot;
    assert Reached(boot, actions, s);
    hide Reached, Compare;
    actions, s := Then(boot, actions, s, MainConnects(true));
    actions, s := Then(boot, actions, s, CloudTakesSem);
    actions, s := Then(boot, actions, s, CloudChecksState);
    actions, s := Then(boot, actions, s, PollBreaks);
  }

  // ---------------------------------------------------------------- all runs

  ghost predicate Safe(s: State) { OtaSafe(s) && Handshake(s) && Recovers(s) }

  lemma SafeStep(s: State, a: Action)
    requires Safe(s) && Enabled(s, a)
    ensures Safe(Apply(s, a))
  {
    OtaStep(s, a);
    HandshakeStep(s, a);
    RecoveryStep(s, a);
  }

  /** Whatever the interleaving: updates are safe, the first check is ordered, and the connection recovers. */
  lemma {:induction false} RunsAreSafe(s: State, actions: seq<Action>)
    requires Legal(s, actions)
    requires Safe(s)
    ensures Safe(Run(s, actions))
    // One-way flags.
    ensures s.fw.ota != Ready ==> Run(s, actions).fw.ota != Ready
    ensures s.mqtt.checked ==> Run(s, actions).mqtt.checked
    ensures s.log <= Run(s, actions).log
    // Without a bare exit from the poll loop the connection stays served.
    ensures Served(s) && PollBreaks !in actions ==> Served(Run(s, actions))
    decreases |actions|
  {
    if actions == [] {
    } else {
      var a := actions[0];
      SafeStep(s, a);
      if Served(s) {
        ServedStepIff(s, a);
      }
      OneWayStep(s, a);
      hide Safe, Served, Enabled, Apply;
      RunsAreSafe(Apply(s, a), actions[1..]);
    }
  }

  lemma OneWayStep(s: State, a: Action)
    requires Enabled(s, a)
    ensures s.fw.ota != Ready ==> Apply(s, a).fw.ota != Ready
    ensures s.mqtt.checked ==> Apply(s, a).mqtt.checked
    ensures s.log <= Apply(s, a).log
  {
    hide LinkStep, MainStep, Compare;
  }

  lemma InitIsSafe(running: Version, otaData: Version)
    ensures
      var s := Init(running, otaData);
      Safe(s) && Served(s)
  {}

  /**
   * After an update was accepted, no run decides to release the application: no ready callback, no submission of the
   * message that the check is done, no subscription to the application topic.
   */
  lemma NoReleaseAfterUpdate(running: Version, otaData: Version, actions: seq<Action>, i: nat, j: nat)
    requires Legal(Init(running, otaData), actions)
    requires
      var log := Run(Init(running, otaData), actions).log;
      i < j < |log| && log[i].Accepted?
    ensures !ReleasesApplication(Run(Init(running, otaData), actions).log[j])
  {
    InitIsSafe(running, otaData);
    RunsAreSafe(Init(running, otaData), actions);
  }

  // What was decided before the acceptance can still be carried out after it.

  /** The main thread has been released and has not gone on yet. */
  predicate Proceeds(main: MainThread) { main.pc == WaitReady && main.sem }

  function One(b: bool): nat { if b then 1 else 0 }

  /** How often `e` has happened. */
  ghost function Count(log: seq<Event>, e: Event): nat { multiset(log)[e] }

  /** An event by which an earlier decision is carried out, or comes to nothing. */
  predicate IsLeftover(e: Event) { e.DonePublished? || e.DoneRefused? || e.SetupEntered? }

  lemma OnlyLeftovers(s: State, a: Action)
    ensures
      if a == RunOtaDone then Events(s, a) == [DoneOutcome(s.link)]
      else if a == MainTakesSem then Events(s, a) == [SetupEntered]
      else forall i :: 0 <= i < |Events(s, a)| ==> !IsLeftover(Events(s, a)[i])
  {
    hide Compare;
  }

  lemma CountNew(s: State, a: Action, e: Event)
    requires IsLeftover(e)
    ensures Count(Apply(s, a).log, e) == Count(s.log, e) +
      One((a == RunOtaDone && e == DoneOutcome(s.link)) || (a == MainTakesSem && e == SetupEntered))
  {
    OnlyLeftovers(s, a);
    hide FirmwareStep, LinkStep, SessionStep, MainStep, Halts, Events, Compare;
    var events := Events(s, a);
    assert multiset(s.log + events) == multiset(s.log) + multiset(events);
    if a == RunOtaDone || a == MainTakesSem {
      assert multiset(events) == multiset{events[0]};
    } else {
      assert e !in multiset(events);
    }
  }

  /** The done messages published, refused and still pending. */
  ghost function DoneCount(s: State): nat {
    Count(s.log, DonePublished) + Count(s.log, DoneRefused) + One(s.mqtt.done)
  }

  /** Once an update was accepted, no step adds to them: a pending message is published or refused. */
  lemma DoneStep(s: State, a: Action)
    requires s.fw.ota != Ready && Enabled(s, a)
    ensures DoneCount(Apply(s, a)) == DoneCount(s)
  {
    CountNew(s, a, DonePublished);
    CountNew(s, a, DoneRefused);
    hide FirmwareStep, LinkStep, MainStep, Events, Halts, Count, Compare;
    assert a != RunOtaDone ==> Apply(s, a).mqtt.done == s.mqtt.done;
  }

  /** How often `setup` was entered, or is going to be. */
  ghost function SetupCount(s: State): nat { Count(s.log, SetupEntered) + One(Proceeds(s.main)) }

  /** Nor does a step enter `setup`, except by using up an earlier release of the main thread. */
  lemma SetupStep(s: State, a: Action)
    requires s.fw.ota != Ready && s.main.pc != Booting && Enabled(s, a)
    ensures Apply(s, a).main.pc != Booting && SetupCount(Apply(s, a)) == SetupCount(s)
  {
    CountNew(s, a, SetupEntered);
    hide FirmwareStep, LinkStep, SessionStep, Events, Halts, Count, Compare;
  }

  /**
   * So over any run from there, a pending done message stays pending, is published or is refused, once, and `setup` is
   * entered at most once, by using up an earlier release of the main thread.
   */
  lemma {:induction false} LeftoverRun(s: State, actions: seq<Action>)
    requires s.fw.ota != Ready && s.main.pc != Booting && Legal(s, actions)
    ensures
      var s' := Run(s, actions);
      && s.log <= s'.log && DoneCount(s') == DoneCount(s) && SetupCount(s') == SetupCount(s)
      && Count(s'.log, DonePublished) >= Count(s.log, DonePublished)
      && Count(s'.log, DoneRefused) >= Count(s.log, DoneRefused)
    decreases |actions|
  {
    if actions == [] {
    } else {
      OneWayStep(s, actions[0]);
      DoneStep(s, actions[0]);
      SetupStep(s, actions[0]);
      CountNew(s, actions[0], DonePublished);
      CountNew(s, actions[0], DoneRefused);
      hide Enabled, Apply, DoneCount, SetupCount, Count;
      LeftoverRun(Apply(s, actions[0]), actions[1..]);
    }
  }

  /** In some run from `s`, `e` happens once more. */
  ghost predicate CanHappen(s: State, e: Event) {
    exists actions :: Legal(s, actions) && Count(s.log, e) < Count(Run(s, actions).log, e)
  }

  lemma ReachedCanHappen(s: State, actions: seq<Action>, s': State, e: Event)
    requires Reached(s, actions, s') && Count(s.log, e) < Count(s'.log, e)
    ensures CanHappen(s, e)
  {}

  lemma ReachedNow(s: State)
    ensures Reached(s, [], s)
  {}

  /** A pending done message is published if the client is connected when its work item runs, and it can be by then. */
  lemma PendingDoneCanBePublished(s: State)
    requires Safe(s) && s.main.pc != Booting && !s.halted && s.mqtt.done
    ensures CanHappen(s, DonePublished)
  {
    var actions, s1 := [], s;
    ReachedNow(s);
    hide Reached, CanHappen, OtaSafe, Handshake, Count;
    if !s.link.connected {
      CountNew(s, RunReconnect(true), DonePublished);
      actions, s1 := Then(s, actions, s, RunReconnect(true));
    }
    assert s1.link.connected && s1.mqtt.done && !s1.halted;
    CountNew(s1, RunOtaDone, DonePublished);
    hide Apply;
    actions, s1 := Then(s, actions, s1, RunOtaDone);
    ReachedCanHappen(s, actions, s1, DonePublished);
  }

  /** It is refused, and lost, if the connection drops first. */
  lemma PendingDoneCanBeRefused(s: State)
    requires s.main.pc != Booting && !s.halted && s.mqtt.done
    ensures CanHappen(s, DoneRefused)
  {
    ReachedNow(s);
    hide Reached, CanHappen, Count;
    CountNew(s, Disconnect, DoneRefused);
    var actions, s1 := Then(s, [], s, Disconnect);
    assert !s1.link.connected && s1.mqtt.done && !s1.halted;
    CountNew(s1, RunOtaDone, DoneRefused);
    hide Apply;
    actions, s1 := Then(s, actions, s1, RunOtaDone);
    ReachedCanHappen(s, actions, s1, DoneRefused);
  }

  lemma ReleasedCanEnterSetup(s: State)
    requires Proceeds(s.main) && !s.halted
    ensures CanHappen(s, SetupEntered)
  {
    ReachedNow(s);
    CountNew(s, MainTakesSem, SetupEntered);
    hide Reached, CanHappen, Count, Apply;
    var actions, s1 := Then(s, [], s, MainTakesSem);
    ReachedCanHappen(s, actions, s1, SetupEntered);
  }

  /**
   * After an update was accepted, the done message can still be published, and can still be refused, exactly if its
   * work item is pending, and `setup` can still be entered exactly if the main thread was released before.
   */
  lemma LateReleaseIff(s: State)
    requires Safe(s) && UpdateAccepted(s.log) && !s.halted
    ensures CanHappen(s, DonePublished) <==> s.mqtt.done
    ensures CanHappen(s, DoneRefused) <==> s.mqtt.done
    ensures CanHappen(s, SetupEntered) <==> Proceeds(s.main)
  {
    assert s.fw.ota != Ready && s.main.pc != Booting;
    if s.mqtt.done {
      PendingDoneCanBePublished(s);
      PendingDoneCanBeRefused(s);
    }
    if Proceeds(s.main) {
      ReleasedCanEnterSetup(s);
    }
    hide Safe, UpdateAccepted, Proceeds, Count;
    if actions :| Legal(s, actions) && Count(s.log, DonePublished) < Count(Run(s, actions).log, DonePublished) {
      LeftoverRun(s, actions);
    }
    if actions :| Legal(s, actions) && Count(s.log, DoneRefused) < Count(Run(s, actions).log, DoneRefused) {
      LeftoverRun(s, actions);
    }
    if actions :| Legal(s, actions) && Count(s.log, SetupEntered) < Count(Run(s, actions).log, SetupEntered) {
      LeftoverRun(s, actions);
    }
  }

  function CheckLog(id: nat): seq<Event> {
    [Connected, Connacked, ConnectHandled, OtaSubscribed(id), SubAck(id), RequestSubmitted, CheckPublished]
  }

  /** How a device gets to its poll loop. */
  lemma PollIsReachable(running: Version, otaData: Version) returns (actions: seq<Action>, s: State)
    ensures Reached(Init(running, otaData), actions, s)
    ensures s == Init(running, otaData).(link := Link(true, false, false, Polling),
                                         main := MainThread(WaitReady, false), log := [Connected])
  {
    var boot := Init(running, otaData);
    actions, s := [], boot;
    assert Reached(boot, actions, s);
    hide Reached, Compare;
    actions, s := Then(boot, actions, s, MainConnects(true));
    actions, s := Then(boot, actions, s, CloudTakesSem);
    actions, s := Then(boot, actions, s, CloudChecksState);
  }

  /** And from there to its first check: subscribed to the OTA topic under `id`, acknowledged, and asked. */
  lemma CheckIsReachable(running: Version, otaData: Version, id: nat) returns (actions: seq<Action>, s: State)
    requires id < UINT16_MODULUS
    ensures Reached(Init(running, otaData), actions, s)
    ensures s.fw == Init(running, otaData).fw && s.main == MainThread(WaitReady, false) && s.link.connected && !s.halted
    ensures !s.mqtt.checked && !s.mqtt.done
    ensures s.log == CheckLog(id)
  {
    var boot := Init(running, otaData);
    actions, s := PollIsReachable(running, otaData);
    hide Reached, Compare;
    actions, s := Then(boot, actions, s, Connack(true));
    assert s.log == [Connected, Connacked] && s.fw.ota == Ready;
    actions, s := Then(boot, actions, s, RunOnConnect(id));
    assert s.log == [Connected, Connacked, ConnectHandled, OtaSubscribed(id)] && s.mqtt.subId == id && !s.mqtt.checked;
    actions, s := Then(boot, actions, s, Suback(true, id));
    actions, s := Then(boot, actions, s, RunOtaRequest);
  }

  /** One step more of a run whose log so far is `log + recent`. */
  lemma ThenLog(boot: State, actions: seq<Action>, s: State, a: Action, log: seq<Event>, recent: seq<Event>)
    returns (actions': seq<Action>, s': State, recent': seq<Event>)
    requires Reached(boot, actions, s) && Enabled(s, a) && s.log == log + recent
    ensures actions' == actions + [a] && s' == Apply(s, a) && Reached(boot, actions', s')
    ensures recent' == recent + Events(s, a) && s'.log == log + recent'
  {
    actions', s' := Then(boot, actions, s, a);
    hide Reached, Enabled, Events;
    recent' := recent + Events(s, a);
  }

  /** Both happen when a newer manifest comes right after the first answer. */
  lemma LateReleaseIsReachable(running: Version, newer: Version, otaData: Version, id: nat)
    returns (actions: seq<Action>, s: State)
    requires Compare(running, newer) == 1 && id < UINT16_MODULUS
    ensures Reached(Init(running, otaData), actions, s)
    ensures s.log == CheckLog(id) +
      [OtaPublish(None, otaData), DoneSubmitted, AppSubscribed, ReadyCallback,
       OtaPublish(Some(newer), newer), Accepted(newer), DonePublished, SetupEntered]
  {
    var boot, log, recent := Init(running, otaData), CheckLog(id), [];
    actions, s := CheckIsReachable(running, otaData, id);
    hide Reached, Compare, CheckLog, Init;
    assert s.log == log + recent;
    actions, s, recent := ThenLog(boot, actions, s, PublishOta(None, otaData), log, recent);
    assert recent == [OtaPublish(None, otaData), DoneSubmitted, AppSubscribed, ReadyCallback];
    actions, s, recent := ThenLog(boot, actions, s, PublishOta(Some(newer), newer), log, recent);
    actions, s, recent := ThenLog(boot, actions, s, RunOtaDone, log, recent);
    actions, s, recent := ThenLog(boot, actions, s, MainTakesSem, log, recent);
  }

  /** The application is set up only after a ready callback that no accepted update preceded. */
  lemma SetupNeedsReady(running: Version, otaData: Version, actions: seq<Action>)
    requires Legal(Init(running, otaData), actions)
    requires Run(Init(running, otaData), actions).main.pc == InSetup
    ensures
      var log := Run(Init(running, otaData), actions).log;
      exists j :: 0 <= j < |log| && log[j].ReadyCallback? && !UpdateAccepted(log[..j])
  {
    InitIsSafe(running, otaData);
    RunsAreSafe(Init(running, otaData), actions);
    var log := Run(Init(running, otaData), actions).log;
    hide Apply, Enabled, Handshake, Recovers, Served;
    var j :| 0 <= j < |log| && log[j].ReadyCallback?;
    ReadyBeforeUpdate(log, j);
  }

  lemma ReadyBeforeUpdate(log: seq<Event>, j: nat)
    requires OtaOrdered(log) && j < |log| && log[j].ReadyCallback?
    ensures !UpdateAccepted(log[..j])
  {
    forall i | 0 <= i < j
      ensures !log[..j][i].Accepted?
    {
      assert log[..j][i] == log[i];
    }
  }

  /** No download starts without an earlier manifest that was judged an upgrade. */
  lemma DownloadNeedsUpgrade(running: Version, otaData: Version, actions: seq<Action>, j: nat)
    requires Legal(Init(running, otaData), actions)
    requires
      var log := Run(Init(running, otaData), actions).log;
      j < |log| && log[j].DownloadStarted?
    ensures
      var log := Run(Init(running, otaData), actions).log;
      exists i :: 0 <= i < j && log[i].Accepted? && Compare(running, log[i].version) == 1
  {
    InitIsSafe(running, otaData);
    RunsAreSafe(Init(running, otaData), actions);
    RunningStays(Init(running, otaData), actions);
    hide Compare, Apply, Enabled, Handshake, Recovers, Served, OtaOrdered, AllUpgrades, UpdateAccepted;
    DownloadAfterUpgrade(running, Run(Init(running, otaData), actions).log, j);
  }

  lemma DownloadAfterUpgrade(running: Version, log: seq<Event>, j: nat)
    requires OtaOrdered(log) && AllUpgrades(running, log) && j < |log| && log[j].DownloadStarted?
    ensures exists i :: 0 <= i < j && log[i].Accepted? && Compare(running, log[i].version) == 1
  {
    var i :| 0 <= i < j && log[..j][i].Accepted?;
    assert log[i].Accepted?;
  }

  lemma {:induction false} RunningStays(s: State, actions: seq<Action>)
    requires Legal(s, actions)
    ensures Run(s, actions).fw.running == s.fw.running
    decreases |actions|
  {
    if actions == [] {
    } else {
      hide Compare;
      RunningStays(Apply(s, actions[0]), actions[1..]);
    }
  }

  /** Once connected, the client is always connected or due to reconnect, and while connected it is listened to. */
  lemma ConnectionRecovers(running: Version, otaData: Version, actions: seq<Action>)
    requires Legal(Init(running, otaData), actions)
    ensures
      var s := Run(Init(running, otaData), actions);
      && (s.main.pc != Booting ==> (s.link.connected <==> !s.link.reconnect))
      && (PollBreaks !in actions && s.link.connected ==>
            s.link.pc == LoopHead || s.link.pc == Polling || s.link.sem)
  {
    InitIsSafe(running, otaData);
    RunsAreSafe(Init(running, otaData), actions);
  }

  // ---------------------------------------------------------------- which image is downloaded

  /** What the latest OTA publish left in `ota_data`, which held `otaData` before any. */
  ghost function LastStored(otaData: Version, log: seq<Event>): Version {
    if log == [] then otaData
    else if log[|log| - 1].OtaPublish? then log[|log| - 1].stored
    else LastStored(otaData, log[..|log| - 1])
  }

  ghost predicate DownloadsLast(otaData: Version, log: seq<Event>) {
    forall j :: 0 <= j < |log| && log[j].DownloadStarted? ==>
      OtaPublished(log[..j]) && log[j].version == LastStored(otaData, log[..j])
  }

  ghost predicate TracksData(otaData: Version, s: State) {
    && s.fw.data == LastStored(otaData, s.log)
    && DownloadsLast(otaData, s.log)
    && (s.fw.fota ==> OtaPublished(s.log))
  }

  lemma AppendStored(otaData: Version, log: seq<Event>, e: Event)
    requires DownloadsLast(otaData, log)
    requires e.DownloadStarted? ==> OtaPublished(log) && e.version == LastStored(otaData, log)
    ensures DownloadsLast(otaData, log + [e])
    ensures OtaPublished(log + [e]) <==> OtaPublished(log) || e.OtaPublish?
    ensures LastStored(otaData, log + [e]) == if e.OtaPublish? then e.stored else LastStored(otaData, log)
  {
    var log' := log + [e];
    AppendPublished(log, e);
    assert log'[..|log|] == log;
    forall j | 0 <= j < |log'| && log'[j].DownloadStarted?
      ensures OtaPublished(log'[..j]) && log'[j].version == LastStored(otaData, log'[..j])
    {
      assert j < |log| ==> log'[..j] == log[..j];
    }
  }

  lemma {:induction false} AppendQuiet(otaData: Version, log: seq<Event>, events: seq<Event>)
    requires DownloadsLast(otaData, log)
    requires forall i :: 0 <= i < |events| ==> !events[i].OtaPublish? && !events[i].DownloadStarted?
    ensures DownloadsLast(otaData, log + events)
    ensures LastStored(otaData, log + events) == LastStored(otaData, log)
    ensures OtaPublished(log + events) <==> OtaPublished(log)
  {
    hide DownloadsLast, LastStored, OtaPublished;
    if events == [] {
      assert log + events == log;
    } else {
      var n := |events| - 1;
      AppendQuiet(otaData, log, events[..n]);
      AppendStored(otaData, log + events[..n], events[n]);
      assert log + events[..n] + [events[n]] == log + events;
    }
  }

  /** Nothing but an OTA publish touches the stored manifest. */
  lemma TracksDataStep(otaData: Version, s: State, a: Action)
    requires TracksData(otaData, s) && Enabled(s, a)
    ensures TracksData(otaData, Apply(s, a))
  {
    var log, events := s.log, Events(s, a);
    hide LastStored, DownloadsLast, OtaPublished, SessionStep, LinkStep, MainStep, Halts, Compare;
    if a.PublishOta? {
      AppendStored(otaData, log, events[0]);
      AppendQuiet(otaData, log + [events[0]], events[1..]);
      assert log + [events[0]] + events[1..] == log + events;
    } else if a == RunFota(true) {
      AppendStored(otaData, log, events[0]);
    } else {
      AppendQuiet(otaData, log, events);
    }
  }

  lemma {:induction false} TracksDataRun(otaData: Version, s: State, actions: seq<Action>)
    requires TracksData(otaData, s) && Legal(s, actions)
    ensures TracksData(otaData, Run(s, actions))
    decreases |actions|
  {
    if actions == [] {
    } else {
      TracksDataStep(otaData, s, actions[0]);
      hide TracksData, Enabled, Apply;
      TracksDataRun(otaData, Apply(s, actions[0]), actions[1..]);
    }
  }

  /** Event `k` is the last OTA publish before event `j`. */
  ghost predicate LastPublish(log: seq<Event>, k: nat, j: nat) {
    k < j <= |log| && log[k].OtaPublish? && forall i :: k < i < j ==> !log[i].OtaPublish?
  }

  lemma {:induction false} LastStoredIsLastPublish(otaData: Version, log: seq<Event>, j: nat) returns (k: nat)
    requires j <= |log| && OtaPublished(log[..j])
    ensures LastPublish(log, k, j) && log[k].stored == LastStored(otaData, log[..j])
    decreases j
  {
    assert log[..j][..j - 1] == log[..j - 1];
    if log[j - 1].OtaPublish? {
      k := j - 1;
    } else {
      var i :| 0 <= i < j && log[..j][i].OtaPublish?;
      assert log[..j - 1][i].OtaPublish?;
      k := LastStoredIsLastPublish(otaData, log, j - 1);
    }
  }

  /**
   * In every run, the image downloaded is the one that the last OTA publish before the download named, accepted or
   * not: so it is an upgrade if and only if that last manifest is.
   */
  lemma DownloadIsUpgradeIff(running: Version, otaData: Version, actions: seq<Action>, j: nat)
    requires Legal(Init(running, otaData), actions)
    requires
      var log := Run(Init(running, otaData), actions).log;
      j < |log| && log[j].DownloadStarted?
    ensures
      var log := Run(Init(running, otaData), actions).log;
      && (exists k: nat :: LastPublish(log, k, j))
      && (forall k: nat :: LastPublish(log, k, j) ==>
            && log[j].version == log[k].stored
            && (Compare(running, log[j].version) == 1 <==> Compare(running, log[k].stored) == 1))
  {
    var boot := Init(running, otaData);
    var log := Run(boot, actions).log;
    TracksDataRun(otaData, boot, actions);
    hide Run, Legal, Compare, OtaPublished;
    assert log[j].version == LastStored(otaData, log[..j]);
    var k := LastStoredIsLastPublish(otaData, log, j);
    assert forall k': nat :: LastPublish(log, k', j) ==> k' == k;
  }

  /** So an older image can be downloaded once a newer one was accepted. */
  lemma OlderImageCanBeDownloaded(running: Version, newer: Version, older: Version, otaData: Version, id: nat)
    returns (actions: seq<Action>, s: State)
    requires Compare(running, newer) == 1 && Compare(running, older) == -1 && id < UINT16_MODULUS
    ensures Reached(Init(running, otaData), actions, s)
    ensures s.log == CheckLog(id) +
      [OtaPublish(Some(newer), newer), Accepted(newer), OtaPublish(Some(older), older), DownloadStarted(older)]
  {
    var boot, log, recent := Init(running, otaData), CheckLog(id), [];
    actions, s := CheckIsReachable(running, otaData, id);
    hide Reached, Compare, CheckLog, Init;
    assert s.log == log + recent;
    actions, s, recent := ThenLog(boot, actions, s, PublishOta(Some(newer), newer), log, recent);
    actions, s, recent := ThenLog(boot, actions, s, PublishOta(Some(older), older), log, recent);
    assert recent == [OtaPublish(Some(newer), newer), Accepted(newer), OtaPublish(Some(older), older)];
    actions, s, recent := ThenLog(boot, actions, s, RunFota(true), log, recent);
  }
}
