/** The BLE central as written: callbacks and a worker that loop over a fixed table of connection slots. */
module BleCentral {
  import opened Bytes
  import opened Options
  import opened BleProtocol

  /** What every callback keeps. */
  lemma Keeps(s: State, a: Action)
    requires Inv(s) && Enabled(s, a)
    ensures Inv(Apply(s, a)) && (Handed(s) ==> Handed(Apply(s, a)))
    ensures NotStuck(s) && (a.RunWork? ==> Honest(s.slots, a.accepts)) ==> NotStuck(Apply(s, a))
  {
    InvStep(s, a);
    if Handed(s) {
      HandedStep(s, a);
    }
    if NotStuck(s) && (a.RunWork? ==> Honest(s.slots, a.accepts)) {
      NotStuckStep(s, a);
    }
  }

  class Central {
    const conns: array<Slot>
    // The longest payload; it depends on the size of an encoded event.
    const queueItemSize: nat
    var btSendWork: bool

    // History.
    var writes: seq<Write>
    var log: seq<Sent>

    constructor (maxConn: nat, queueItemSize: nat)
      ensures Valid() && NotStuck(View())
      ensures View() == Init(maxConn) && fresh(conns) && this.queueItemSize == queueItemSize
    {
      this.queueItemSize := queueItemSize;
      conns := new Slot[maxConn](i => FREE);
      btSendWork, writes, log := false, [], [];
    }

    ghost function View(): State
      reads this, conns
    {
      State(conns[..], btSendWork, writes, log)
    }

    /** Queued items belong to the present connection of their slot, and what was taken from a queue was sent. */
    ghost predicate Valid()
      reads this, conns
    {
      Inv(View()) && Handed(View())
    }

    /** The search every callback starts with. */
    method FindSlot(conn: Option<nat>) returns (i: nat)
      ensures i == Find(conns[..], conn) && i <= conns.Length
      ensures i < conns.Length ==> conns[i].conn == conn
    {
      i := 0;
      while i < conns.Length
        invariant i <= conns.Length && Find(conns[..], conn) == FindFrom(conns[..], conn, i)
      {
        if conns[i].conn == conn {
          return;
        }
        i := i + 1;
      }
    }

    /** `connected`, for a connection without error. */
    method Connected(conn: nat)
      requires Valid()
      modifies conns
      ensures View() == Apply(old(View()), Connect(conn))
      ensures Valid() && (NotStuck(old(View())) ==> NotStuck(View()))
    {
      ghost var s := View();
      hide Inv, Handed, NotStuck, Honest;
      Keeps(s, Connect(conn));
      var i := FindSlot(None);
      if i < conns.Length {
        conns[i] := conns[i].(conn := Some(conn));
      }
    }

    /** `discovery_completed`, when the handles are assigned and notifications enabled. */
    method DiscoveryCompleted(conn: nat)
      requires Valid()
      modifies conns
      ensures View() == Apply(old(View()), Discover(conn))
      ensures Valid() && (NotStuck(old(View())) ==> NotStuck(View()))
    {
      ghost var s := View();
      hide Inv, Handed, NotStuck, Honest;
      Keeps(s, Discover(conn));
      var i := FindSlot(Some(conn));
      if i < conns.Length {
        conns[i] := if conns[i].ready then conns[i]
                    else conns[i].(ready := true, since := |writes|, popped := [], overflowed := false);
      }
    }

    method Disconnected(conn: nat)
      requires Valid()
      modifies conns
      ensures View() == Apply(old(View()), Disconnect(conn))
      ensures Valid() && (NotStuck(old(View())) ==> NotStuck(View()))
    {
      ghost var s := View();
      hide Inv, Handed, NotStuck, Honest;
      Keeps(s, Disconnect(conn));
      var i := FindSlot(Some(conn));
      if i < conns.Length {
        conns[i] := conns[i].(conn := None);
        conns[i] := conns[i].(q := [], inFlight := 0);
        conns[i] := conns[i].(ready := false);
      }
    }

    /** `ble_central_write`: refused without a ready connection or when too long. */
    method BleCentralWrite(data: seq<Byte>)
      requires Valid()
      modifies this, conns
      ensures View() == if |data| <= queueItemSize then Apply(old(View()), WriteAll(data)) else old(View())
      ensures Valid() && (NotStuck(old(View())) ==> NotStuck(View()))
    {
      ghost var s := View();
      hide Inv, Handed, NotStuck, Honest;
      Keeps(s, WriteAll(data));
      var ready, i := false, 0;
      while i < conns.Length
        invariant i <= conns.Length && !ready
        invariant forall j :: 0 <= j < i ==> !conns[j].ready
      {
        if conns[i].ready {
          ready := true;
          break;
        }
        i := i + 1;
      }
      assert ready <==> AnyReady(s.slots) by {
        assert ready ==> s.slots[i].ready;
        assert forall j :: 0 <= j < |s.slots| ==> s.slots[j] == conns[j];
      }
      if !ready || |data| > queueItemSize {
        return;
      }
      ghost var item := Item(data, |writes|);
      var write := Write(data, Audience(conns[..]));
      i := 0;
      while i < conns.Length
        invariant i <= conns.Length
        invariant forall j :: 0 <= j < i ==> conns[j] == Enqueue(s.slots[j], item)
        invariant forall j :: i <= j < conns.Length ==> conns[j] == s.slots[j]
        invariant writes == s.writes && log == s.log && btSendWork == s.work
      {
        if conns[i].ready {
          if |conns[i].q| < BLE_CENTRAL_QUEUE_SIZE {
            conns[i] := conns[i].(q := conns[i].q + [Item(data, |writes|)]);
          } else {
            conns[i] := conns[i].(overflowed := true);
          }
        }
        i := i + 1;
      }
      assert conns[..] == EnqueueAll(s.slots, item);
      writes := writes + [write];
      btSendWork := true;
    }

    /** One turn of the worker's loop: takes the oldest item of slot `i`, if it can be sent, and sends it. */
    method SendFrom(i: nat, accept: bool)
      requires i < conns.Length
      modifies this`log, conns
      ensures conns[..] == old(conns[..])[i := SendOne(old(conns[i]), accept)]
      ensures log == old(log) + SentFrom(i, old(conns[i]), accept)
    {
      var slot := conns[i];
      if !slot.ready || slot.conn == None || |slot.q| == 0 {
        return;
      }
      var payload := slot.q[0];
      slot := slot.(q := slot.q[1..], popped := slot.popped + [payload]);
      if accept {
        slot := slot.(inFlight := slot.inFlight + 1);
      }
      conns[i] := slot;
      log := log + [Sent(i, slot.conn, slot.since, payload, accept)];
    }

    /** The worker's loop; `accepts` says which sends the stack takes. */
    method SendFromAll(accepts: seq<bool>)
      requires |accepts| == conns.Length
      modifies this`log, conns
      ensures conns[..] == SendPass(old(conns[..]), accepts)
      ensures log == old(log) + PassLog(old(conns[..]), accepts, conns.Length)
    {
      ghost var slots := conns[..];
      PassedEnds(slots, accepts);
      hide Passed, PassLog, SendOne, SendPass, SentFrom;
      var i := 0;
      while i < conns.Length
        invariant i <= conns.Length
        invariant conns[..] == Passed(slots, accepts, i)
        invariant log == old(log) + PassLog(slots, accepts, i)
      {
        PassedNext(slots, accepts, i, old(log));
        assert conns[..][i] == conns[i];
        SendFrom(i, accepts[i]);
        i := i + 1;
      }
    }

    /** `bt_send_work_handler`. */
    method BtSendWorkHandler(accepts: seq<bool>)
      requires Valid() && Enabled(View(), RunWork(accepts))
      modifies this, conns
      ensures View() == Apply(old(View()), RunWork(accepts))
      ensures Valid() && (NotStuck(old(View())) && Honest(old(View()).slots, accepts) ==> NotStuck(View()))
    {
      Keeps(View(), RunWork(accepts));
      hide Inv, Handed, NotStuck, Honest, PassLog, SendOne, SendPass;
      btSendWork := false;
      SendFromAll(accepts);
    }

    /** `ble_data_sent` for the client of slot `i`. */
    method BleDataSent(i: nat)
      requires Valid() && Enabled(View(), DataSent(i))
      modifies this`btSendWork, conns
      ensures View() == Apply(old(View()), DataSent(i))
      ensures Valid() && (NotStuck(old(View())) ==> NotStuck(View()))
    {
      ghost var s := View();
      hide Inv, Handed, NotStuck, Honest;
      Keeps(s, DataSent(i));
      conns[i] := conns[i].(inFlight := conns[i].inFlight - 1);
      if |conns[i].q| != 0 {
        btSendWork := true;
      }
    }
  }

  /** What the central handed to the stack for a ready slot is what it took from that slot's queue, in order. */
  lemma SendsAreTaken(c: Central, i: nat)
    requires c.Valid() && i < c.conns.Length && c.conns[i].ready && !c.conns[i].overflowed
    ensures
      var sent := SentTo(c.log, i, c.conns[i].since);
      AreWrites(sent + c.conns[i].q, c.writes, c.conns[i].since)
  {
    assert c.View().slots[i] == c.conns[i];
    assert SlotInv(c.View().slots[i], i, c.writes);
  }

  /** Whatever the central handed to the stack was written while that connection was ready in that slot. */
  lemma SendsAreCurrent(c: Central, k: nat)
    requires c.Valid() && k < |c.log|
    ensures
      var e := c.log[k];
      && e.conn.Some? && e.since <= e.item.stamp < |c.writes|
      && c.writes[e.item.stamp].data == e.item.data
      && e.slot < |c.writes[e.item.stamp].audience| && c.writes[e.item.stamp].audience[e.slot] == e.conn
  {
    assert c.View().log[k] == c.log[k];
  }
}
