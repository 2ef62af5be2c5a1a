/**
 * The cloud client as written: callbacks, work items and loop turns that update shared static variables.
 * Each method takes one step of the state machine in `CloudProtocol`.
 */
module PyrinasCloud {
  import opened Options
  import opened Version
  import opened CloudProtocol
  import opened CloudHistory
  import Topics

  const EINPROGRESS := 119
  const ECONNREFUSED := 111

  datatype MqttEvent =
    | ConnackEvt(result: int)
    | DisconnectEvt
    | PublishEvt(topic: string, after: string, decoded: Option<Version>, residue: Version)
    | SubackEvt(result: int, messageId: nat)

  /** How one turn of the poll loop ends: normally, by a bare `break`, or by `mqtt_abort` and `break`. */
  datatype PollOutcome = Again | Break | Abort

  class Client {
    // The static variables, grouped as in the state machine, and the fact that the device has stopped.
    var fw: Firmware
    var mqtt: Session
    var link: Link
    var main: MainThread
    var halted: bool

    // The application's callbacks, and the device's identity.
    const callbacks: Topics.CallbackTable

    // History: what was in memory at boot, the steps taken since, and what an observer saw of them.
    ghost const otaDataAtBoot: Version
    ghost var steps: seq<Action>
    ghost var log: seq<Event>

    constructor (version: Version, otaData: Version, callbacks: Topics.CallbackTable)
      ensures Valid() && View() == Init(version, otaData) && this.callbacks == callbacks
    {
      this.callbacks := callbacks;
      otaDataAtBoot := otaData;
      var s := Init(version, otaData);
      fw, mqtt, link, main, halted, steps, log := s.fw, s.mqtt, s.link, s.main, false, [], [];
      InitIsSafe(version, otaData);
    }

    ghost function View(): State
      reads this
    {
      State(fw, mqtt, link, main, halted, log)
    }

    /** Where the state machine is after the steps taken; every theorem about its runs holds of the client. */
    ghost predicate Valid()
      reads this
    {
      Reached(Init(fw.running, otaDataAtBoot), steps, View()) && Safe(View())
    }

    /** Records the step that the method at hand takes. */
    ghost method Take(a: Action)
      requires Valid() && Enabled(View(), a)
      modifies this`steps
      ensures steps == old(steps) + [a]
      ensures Reached(Init(fw.running, otaDataAtBoot), steps, Apply(View(), a)) && Safe(Apply(View(), a))
    {
      ReachedNext(Init(fw.running, otaDataAtBoot), steps, View(), a);
      SafeStep(View(), a);
      steps := steps + [a];
    }

    /** The application's `cloud_state_callback`. */
    method CloudStateCallback(connected: bool)
      modifies this`link
      ensures link == old(link).(reconnect := old(link).reconnect || !connected)
    {
      if !connected {
        link := link.(reconnect := true);
      }
    }

    /** The application's `pyrinas_cloud_ota_evt_handler`. */
    method OtaStateCallback(state: OtaState)
      modifies this`main
      ensures main == old(main).(sem := old(main).sem || state == Ready)
    {
      if state == Ready {
        main := main.(sem := true);
      }
    }

    /** `pyrinas_cloud_connect`; `ok` says whether the MQTT client connects. */
    method Connect(ok: bool) returns (err: int)
      modifies this`link
      ensures err <= 0 && (err == 0 <==> !old(link.connected) && ok)
      ensures old(link.connected) ==> err == -EINPROGRESS
      ensures link == if err == 0 then old(link).(connected := true, sem := true) else old(link)
    {
      if link.connected {
        return -EINPROGRESS;
      }
      if !ok {
        return -ECONNREFUSED;
      }
      link := link.(connected := true);
      CloudStateCallback(link.connected);
      link := link.(sem := true);
      return 0;
    }

    /** `main` up to its wait: a failing first connect is a failed assertion. */
    method MainConnect(ok: bool)
      requires Valid() && Enabled(View(), MainConnects(ok)) && !link.connected
      modifies this
      ensures View() == Apply(old(View()), MainConnects(ok))
      ensures Valid()
    {
      hide Reached, Safe, Compare;
      Take(MainConnects(ok));
      var err := Connect(ok);
      if err != 0 {
        halted := true;
        log := log + [BootFailed];
        return;
      }
      main := main.(pc := WaitReady);
      log := log + [Connected];
    }

    method MainProceed()
      requires Valid() && Enabled(View(), MainTakesSem)
      modifies this
      ensures View() == Apply(old(View()), MainTakesSem)
      ensures Valid()
    {
      hide Reached, Safe, Compare;
      Take(MainTakesSem);
      main := main.(sem := false);
      main := main.(pc := InSetup);
      log := log + [SetupEntered];
    }

    /** The OTA part of `publish_evt_handler`; `decoded` is the outcome of decoding the payload as a manifest. */
    method HandleManifest(decoded: Option<Version>, residue: Version)
      requires Valid() && Enabled(View(), PublishOta(decoded, residue))
      modifies this
      ensures View() == Apply(old(View()), PublishOta(decoded, residue))
      ensures Valid()
    {
      hide Reached, Safe, Compare;
      Take(PublishOta(decoded, residue));
      var result := 0;
      mqtt := mqtt.(checked := true);
      fw := fw.(data := if decoded.Some? then decoded.value else residue);
      if decoded.Some? {
        result := VerComp(fw.running, fw.data);
      }
      if result == 1 {
        fw := fw.(ota := Started);
        OtaStateCallback(fw.ota);
        fw := fw.(fota := true);
        log := log + [OtaPublish(decoded, fw.data), Accepted(fw.data)];
      } else if fw.ota == Ready {
        mqtt := mqtt.(done := true);
        OtaStateCallback(fw.ota);
        log := log + [OtaPublish(decoded, fw.data), DoneSubmitted, AppSubscribed, ReadyCallback];
      } else {
        log := log + [OtaPublish(decoded, fw.data)];
      }
    }

    /**
     * A publish on the OTA topic is a step; any other changes nothing here and calls back the application, if at all,
     * once.
     */
    method PublishEvtHandler(topic: string, after: string, decoded: Option<Version>, residue: Version)
        returns (called: Option<nat>)
      requires Valid() && callbacks.Valid() && Enabled(View(), PublishOta(decoded, residue))
      modifies this
      ensures
        if Topics.RoutesToOta(callbacks.imei, topic, after) then
          View() == Apply(old(View()), PublishOta(decoded, residue)) && called == None
        else
          var k := Topics.FirstMatch(callbacks.entries, topic, 0);
          View() == old(View()) && called == if k < |callbacks.entries| then Some(k) else None
      ensures Valid()
    {
      called := None;
      if Topics.RoutesToOta(callbacks.imei, topic, after) {
        hide Reached, Safe, Apply;
        HandleManifest(decoded, residue);
      } else {
        called := callbacks.Dispatch(topic);
      }
    }

    /** The step an MQTT event stands for; an application publish changes nothing here. */
    ghost function StepOf(evt: MqttEvent): Option<Action> {
      match evt
      case ConnackEvt(result) => Some(Connack(result == 0))
      case DisconnectEvt => Some(Disconnect)
      case PublishEvt(topic, after, decoded, residue) =>
        if Topics.RoutesToOta(callbacks.imei, topic, after) then Some(PublishOta(decoded, residue)) else None
      case SubackEvt(result, id) => Some(Suback(result == 0, id))
    }

    method MqttEvtHandler(evt: MqttEvent)
      requires Valid() && callbacks.Valid() && !halted && main.pc != Booting
      requires evt.SubackEvt? ==> evt.messageId < UINT16_MODULUS
      modifies this
      ensures View() == if StepOf(evt).Some? then Apply(old(View()), StepOf(evt).value) else old(View())
      ensures Valid()
      ensures evt.DisconnectEvt? || (evt.ConnackEvt? && evt.result != 0) ==> !link.connected && link.reconnect
      ensures evt.ConnackEvt? && evt.result == 0 ==> mqtt.onConnect && link == old(link)
      // An acknowledgment of the OTA subscription asks for the check and schedules the look for its answer.
      ensures evt.SubackEvt? ==>
        mqtt == if evt.result == 0 && evt.messageId == old(mqtt.subId) && !old(mqtt.checked)
                then old(mqtt).(request := true, watch := true) else old(mqtt)
    {
      hide Reached, Safe, Compare;
      assert log + [] == log;
      match evt {
        case ConnackEvt(result) =>
          Take(Connack(result == 0));
          if result != 0 {
            link := link.(connected := false);
            CloudStateCallback(link.connected);
            log := log + [Disconnected];
          } else {
            mqtt := mqtt.(onConnect := true);
            log := log + [Connacked];
          }
        case DisconnectEvt =>
          Take(Disconnect);
          link := link.(connected := false);
          CloudStateCallback(link.connected);
          log := log + [Disconnected];
        case PublishEvt(topic, after, decoded, residue) =>
          var called := PublishEvtHandler(topic, after, decoded, residue);
        case SubackEvt(result, id) =>
          Take(Suback(result == 0, id));
          if result == 0 {
            log := log + [SubAck(id)];
            if mqtt.subId == id && !mqtt.checked {
              mqtt := mqtt.(request := true);
              mqtt := mqtt.(watch := true);
              log := log + [RequestSubmitted];
            }
          }
      }
    }

    /** `on_connect_fn`; `random` is the fresh message id. */
    method OnConnectFn(random: nat)
      requires Valid() && Enabled(View(), RunOnConnect(random))
      modifies this
      ensures View() == Apply(old(View()), RunOnConnect(random))
      ensures Valid()
    {
      hide Reached, Safe, Compare;
      Take(RunOnConnect(random));
      mqtt := mqtt.(onConnect := false);
      log := log + [ConnectHandled];
      if fw.ota == Ready {
        mqtt := mqtt.(subId := random);
        log := log + [OtaSubscribed(random)];
      }
    }

    /** `ota_request_work_fn`. */
    method OtaRequestWorkFn()
      requires Valid() && Enabled(View(), RunOtaRequest)
      modifies this
      ensures View() == Apply(old(View()), RunOtaRequest)
      ensures Valid()
    {
      hide Reached, Safe, Compare;
      Take(RunOtaRequest);
      mqtt := mqtt.(request := false);
      // `data_publish` refuses the request while disconnected.
      if link.connected {
        log := log + [CheckPublished];
      } else {
        log := log + [CheckRefused];
      }
    }

    /** `ota_done_work_fn`. */
    method OtaDoneWorkFn()
      requires Valid() && Enabled(View(), RunOtaDone)
      modifies this
      ensures View() == Apply(old(View()), RunOtaDone)
      ensures Valid()
    {
      hide Reached, Safe, Compare;
      Take(RunOtaDone);
      mqtt := mqtt.(done := false);
      // `data_publish` refuses the message while disconnected.
      if link.connected {
        log := log + [DonePublished];
      } else {
        log := log + [DoneRefused];
      }
    }

    method OtaCheckSubscribedWorkFn()
      requires Valid() && Enabled(View(), RunCheckSubscribed)
      modifies this
      ensures View() == Apply(old(View()), RunCheckSubscribed)
      ensures Valid()
    {
      hide Reached, Safe, Compare;
      Take(RunCheckSubscribed);
      mqtt := mqtt.(watch := false);
      if !mqtt.checked {
        halted := true;
        log := log + [NoResponseAssert];
      } else {
        log := log + [CheckPassed];
      }
    }

    /** `fota_start_fn`; `ok` says whether the download library accepts the download. */
    method FotaStartFn(ok: bool)
      requires Valid() && Enabled(View(), RunFota(ok))
      modifies this
      ensures View() == Apply(old(View()), RunFota(ok))
      ensures Valid()
    {
      hide Reached, Safe, Compare;
      Take(RunFota(ok));
      fw := fw.(fota := false);
      if !ok {
        fw := fw.(ota := Error);
        OtaStateCallback(fw.ota);
        halted := true;
        log := log + [DownloadRefused];
        return;
      }
      fw := fw.(downloading := true);
      fw := fw.(ota := Downloading);
      OtaStateCallback(fw.ota);
      log := log + [DownloadStarted(fw.data)];
    }

    method FotaEvt(finished: bool)
      requires Valid() && Enabled(View(), FotaEvent(finished))
      modifies this
      ensures View() == Apply(old(View()), FotaEvent(finished))
      ensures Valid()
      ensures fw.ota == (if finished then Done else Error) && fw.reboot
    {
      hide Reached, Safe, Compare;
      Take(FotaEvent(finished));
      fw := fw.(downloading := false);
      fw := fw.(ota := if finished then Done else Error);
      OtaStateCallback(fw.ota);
      fw := fw.(reboot := true);
      log := log + [DownloadEnded(finished)];
    }

    /** `reboot_work_fn`; what follows the reboot in its body is never reached. */
    method RebootWorkFn()
      requires Valid() && Enabled(View(), RunReboot)
      modifies this
      ensures View() == Apply(old(View()), RunReboot)
      ensures Valid()
    {
      hide Reached, Safe, Compare;
      Take(RunReboot);
      fw := fw.(reboot := false);
      halted := true;
      log := log + [Reboot];
    }

    method ReconnectWorkFn(ok: bool)
      requires Valid() && Enabled(View(), RunReconnect(ok))
      modifies this
      ensures View() == Apply(old(View()), RunReconnect(ok))
      ensures Valid()
    {
      hide Reached, Safe, Compare;
      Take(RunReconnect(ok));
      link := link.(reconnect := false);
      var err := Connect(ok);
      if err != 0 && err != EINPROGRESS {
        link := link.(reconnect := true);
      }
      log := log + if err == 0 then [Connected] else [];
    }

    /** `pyrinas_cloud_process` at its semaphore, which has been given. */
    method CloudTakeSem()
      requires Valid() && Enabled(View(), CloudTakesSem)
      modifies this
      ensures View() == Apply(old(View()), CloudTakesSem)
      ensures Valid()
    {
      hide Reached, Safe, Compare;
      Take(CloudTakesSem);
      link := link.(sem := false);
      link := link.(pc := LoopHead);
      assert log + [] == log;
    }

    /** The head of the poll loop. */
    method CloudCheckState()
      requires Valid() && Enabled(View(), CloudChecksState)
      modifies this
      ensures View() == Apply(old(View()), CloudChecksState)
      ensures Valid()
    {
      hide Reached, Safe, Compare;
      Take(CloudChecksState);
      link := link.(pc := if link.connected then Polling else WaitSem);
      assert log + [] == log;
    }

    ghost function EndOf(outcome: PollOutcome): Action {
      match outcome
      case Again => PollReturns
      case Break => PollBreaks
      case Abort => PollAborts
    }

    /** One turn of the poll loop; events it delivers are steps of their own, except the disconnect of an abort. */
    method CloudPoll(outcome: PollOutcome)
      requires Valid() && Enabled(View(), PollReturns)
      modifies this
      ensures View() == Apply(old(View()), EndOf(outcome))
      ensures Valid()
      ensures outcome == Abort ==> !link.connected && link.reconnect
      ensures outcome != Abort ==> link.connected == old(link.connected)
      ensures link.pc == match outcome case Again => LoopHead case Break => WaitSem case Abort => Leaving
    {
      hide Reached, Safe, Compare;
      Take(EndOf(outcome));
      assert log + [] == log;
      match outcome {
        case Again =>
          link := link.(pc := LoopHead);
        case Break =>
          link := link.(pc := WaitSem);
        case Abort =>
          link := link.(connected := false);
          CloudStateCallback(link.connected);
          log := log + [Disconnected];
          link := link.(pc := Leaving);
      }
    }

    /** The cloud thread on its way back to its semaphore after an abort. */
    method CloudLeave()
      requires Valid() && Enabled(View(), CloudLeaves)
      modifies this
      ensures View() == Apply(old(View()), CloudLeaves)
      ensures Valid()
    {
      hide Reached, Safe, Compare;
      Take(CloudLeaves);
      link := link.(pc := WaitSem);
      assert log + [] == log;
    }
  }

  /** What that means for a client at any time. */
  lemma ClientKeepsItsPromises(c: Client)
    requires c.Valid()
    // The application is set up, or about to be, only after a ready callback that no accepted update preceded.
    ensures c.main.sem || c.main.pc == InSetup ==>
      exists j :: 0 <= j < |c.log| && c.log[j].ReadyCallback? && !UpdateAccepted(c.log[..j])
    // A download follows an accepted upgrade, and its image is what the last OTA publish named.
    ensures c.fw.fota || c.fw.downloading ==>
      exists i :: 0 <= i < |c.log| && c.log[i].Accepted? && Compare(c.fw.running, c.log[i].version) == 1
    ensures c.fw.data == LastStored(c.otaDataAtBoot, c.log)
    // No check is asked for any more once an answer came.
    ensures c.mqtt.checked <==> OtaPublished(c.log)
    // Connected, or about to reconnect.
    ensures c.main.pc != Booting ==> (c.link.connected <==> !c.link.reconnect)
    // The log tells the state, every OTA publish in it is answered, and every check is followed up.
    ensures KnownOf(c.View()) == Replay(KnownOf(Init(c.fw.running, c.otaDataAtBoot)), c.log)
    ensures Answered(c.fw.running, c.log) && AllFollowedUp(c.log)
  {
    var boot := Init(c.fw.running, c.otaDataAtBoot);
    assert c.View().log == c.log && c.View().fw == c.fw;
    TracksDataRun(c.otaDataAtBoot, boot, c.steps);
    StateIsObserved(KnownOf(boot), boot, c.steps);
    PublishesAreAnswered(c.fw.running, c.otaDataAtBoot, c.steps);
    ChecksAreMade(c.fw.running, c.otaDataAtBoot, c.steps);
    hide Run, Legal, Compare, LastStored, Replay, Answered, AllFollowedUp;
    if j :| 0 <= j < |c.log| && c.log[j].ReadyCallback? {
      ReadyBeforeUpdate(c.log, j);
    }
  }
}
