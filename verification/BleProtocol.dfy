/**
 * The BLE central's connection slots and send queues as a state machine: a write is queued for every ready slot,
 * a worker sends at most one item per slot and pass, and the Bluetooth stack reports connections and completed sends.
 */
module BleProtocol {
  import opened Bytes
  import opened Options

  const BLE_CENTRAL_QUEUE_SIZE := 10

  /** A queued payload; `stamp` is the number of the write it comes from. */
  datatype Item = Item(data: seq<Byte>, stamp: nat)

  /**
   * One connection slot. `inFlight` counts the sends the stack has accepted and not yet confirmed. The rest is history
   * of the present connection: `since` is the number of writes before it became ready, `popped` what the worker has
   * taken from its queue, `overflowed` whether an item was refused by a full queue.
   */
  datatype Slot = Slot(conn: Option<nat>, ready: bool, q: seq<Item>, inFlight: nat,
                       since: nat, popped: seq<Item>, overflowed: bool)

  const FREE := Slot(None, false, [], 0, 0, [], false)

  /** A broadcast: the payload, and for each slot the connection that was ready to receive it. */
  datatype Write = Write(data: seq<Byte>, audience: seq<Option<nat>>)

  /** The worker handed `item` to the stack for the connection in `slot`, ready since `since`. */
  datatype Sent = Sent(slot: nat, conn: Option<nat>, since: nat, item: Item, accepted: bool)

  datatype State = State(slots: seq<Slot>, work: bool, writes: seq<Write>, log: seq<Sent>)

  datatype Action =
    | Connect(conn: nat)
    | Discover(conn: nat)
    | Disconnect(conn: nat)
    | WriteAll(data: seq<Byte>)
    | RunWork(accepts: seq<bool>)
    | DataSent(slot: nat)

  /** Payloads are bounded by the queue items; work runs when submitted; only sends in flight are confirmed. */
  predicate Enabled(s: State, a: Action) {
    match a
    case RunWork(accepts) => s.work && |accepts| == |s.slots|
    case DataSent(i) => i < |s.slots| && 0 < s.slots[i].inFlight
    case _ => true
  }

  /** The first slot from `i` on that holds `conn`, or the number of slots. */
  function FindFrom(slots: seq<Slot>, conn: Option<nat>, i: nat): (k: nat)
    requires i <= |slots|
    ensures i <= k <= |slots|
    decreases |slots| - i
  {
    if i == |slots| || slots[i].conn == conn then i else FindFrom(slots, conn, i + 1)
  }

  function Find(slots: seq<Slot>, conn: Option<nat>): nat { FindFrom(slots, conn, 0) }

  function Become(slot: Slot, writes: nat): Slot {
    if slot.ready then slot else slot.(ready := true, since := writes, popped := [], overflowed := false)
  }

  predicate AnyReady(slots: seq<Slot>) { exists i :: 0 <= i < |slots| && slots[i].ready }

  function Audience(slots: seq<Slot>): seq<Option<nat>> {
    seq(|slots|, i requires 0 <= i < |slots| => if slots[i].ready then slots[i].conn else None)
  }

  function Enqueue(slot: Slot, item: Item): Slot {
    if !slot.ready then slot
    else if |slot.q| < BLE_CENTRAL_QUEUE_SIZE then slot.(q := slot.q + [item])
    else slot.(overflowed := true)
  }

  function EnqueueAll(slots: seq<Slot>, item: Item): seq<Slot> {
    seq(|slots|, i requires 0 <= i < |slots| => Enqueue(slots[i], item))
  }

  predicate Sendable(slot: Slot) { slot.ready && slot.conn.Some? && slot.q != [] }

  function SendOne(slot: Slot, accept: bool): Slot {
    if Sendable(slot) then
      slot.(q := slot.q[1..], popped := slot.popped + [slot.q[0]], inFlight := slot.inFlight + if accept then 1 else 0)
    else slot
  }

  function SendPass(slots: seq<Slot>, accepts: seq<bool>): seq<Slot>
    requires |accepts| == |slots|
  {
    seq(|slots|, i requires 0 <= i < |slots| => SendOne(slots[i], accepts[i]))
  }

  /** The slots when a pass is done with the first `n`. */
  ghost function Passed(slots: seq<Slot>, accepts: seq<bool>, n: nat): seq<Slot>
    requires |accepts| == |slots| && n <= |slots|
  {
    SendPass(slots[..n], accepts[..n]) + slots[n..]
  }

  function SentFrom(i: nat, slot: Slot, accept: bool): seq<Sent> {
    if Sendable(slot) then [Sent(i, slot.conn, slot.since, slot.q[0], accept)] else []
  }

  /** What a pass over the first `n` slots hands to the stack. */
  function PassLog(slots: seq<Slot>, accepts: seq<bool>, n: nat): seq<Sent>
    requires |accepts| == |slots| && n <= |slots|
  {
    if n == 0 then [] else PassLog(slots, accepts, n - 1) + SentFrom(n - 1, slots[n - 1], accepts[n - 1])
  }

  lemma PassedNext(slots: seq<Slot>, accepts: seq<bool>, n: nat, log: seq<Sent>)
    requires |accepts| == |slots| && n < |slots|
    ensures |Passed(slots, accepts, n)| == |slots| && Passed(slots, accepts, n)[n] == slots[n]
    ensures Passed(slots, accepts, n + 1) == Passed(slots, accepts, n)[n := SendOne(slots[n], accepts[n])]
    ensures log + PassLog(slots, accepts, n + 1)
         == log + PassLog(slots, accepts, n) + SentFrom(n, slots[n], accepts[n])
  {
    hide SendOne;
  }

  lemma PassedEnds(slots: seq<Slot>, accepts: seq<bool>)
    requires |accepts| == |slots|
    ensures Passed(slots, accepts, 0) == slots && PassLog(slots, accepts, 0) == []
    ensures Passed(slots, accepts, |slots|) == SendPass(slots, accepts)
  {
    hide SendOne;
    assert slots[..|slots|] == slots && accepts[..|slots|] == accepts;
  }

  function Apply(s: State, a: Action): State
    requires Enabled(s, a)
  {
    match a
    case Connect(c) =>
      var i := Find(s.slots, None);
      if i == |s.slots| then s else s.(slots := s.slots[i := s.slots[i].(conn := Some(c))])
    case Discover(c) =>
      var i := Find(s.slots, Some(c));
      if i == |s.slots| then s else s.(slots := s.slots[i := Become(s.slots[i], |s.writes|)])
    case Disconnect(c) =>
      var i := Find(s.slots, Some(c));
      if i == |s.slots| then s
      else s.(slots := s.slots[i := s.slots[i].(conn := None, q := [], ready := false, inFlight := 0)])
    case WriteAll(data) =>
      if !AnyReady(s.slots) then s
      else State(EnqueueAll(s.slots, Item(data, |s.writes|)), true, s.writes + [Write(data, Audience(s.slots))], s.log)
    case RunWork(accepts) =>
      State(SendPass(s.slots, accepts), false, s.writes, s.log + PassLog(s.slots, accepts, |s.slots|))
    case DataSent(i) =>
      var slot := s.slots[i].(inFlight := s.slots[i].inFlight - 1);
      State(s.slots[i := slot], s.work || slot.q != [], s.writes, s.log)
  }

  ghost predicate Legal(s: State, actions: seq<Action>)
    decreases |actions|
  {
    actions == [] || (Enabled(s, actions[0]) && Legal(Apply(s, actions[0]), actions[1..]))
  }

  ghost function Run(s: State, actions: seq<Action>): State
    requires Legal(s, actions)
    decreases |actions|
  {
    if actions == [] then s else Run(Apply(s, actions[0]), actions[1..])
  }

  // ---------------------------------------------------------------- delivery

  /** `items` are the writes from `since` on, in order and without a gap. */
  ghost predicate AreWrites(items: seq<Item>, writes: seq<Write>, since: nat) {
    && since + |items| <= |writes|
    && forall k :: 0 <= k < |items| ==> items[k] == Item(writes[since + k].data, since + k)
  }

  /** An item was written while connection `conn`, ready since `since`, occupied slot `i`. */
  ghost predicate WrittenFor(item: Item, writes: seq<Write>, i: nat, conn: Option<nat>, since: nat) {
    && since <= item.stamp < |writes|
    && item.data == writes[item.stamp].data
    && i < |writes[item.stamp].audience| && writes[item.stamp].audience[i] == conn && conn.Some?
  }

  ghost predicate SlotInv(slot: Slot, i: nat, writes: seq<Write>) {
    && (slot.conn.None? ==> !slot.ready)
    && (!slot.ready ==> slot.q == [])
    && |slot.q| <= BLE_CENTRAL_QUEUE_SIZE
    && (forall k :: 0 <= k < |slot.q| ==> WrittenFor(slot.q[k], writes, i, slot.conn, slot.since))
    && (slot.ready ==>
          && slot.since <= |writes|
          && (forall t :: slot.since <= t < |writes| ==> i < |writes[t].audience| && writes[t].audience[i] == slot.conn)
          && (!slot.overflowed ==>
                AreWrites(slot.popped + slot.q, writes, slot.since)
                && |slot.popped + slot.q| == |writes| - slot.since))
  }

  ghost predicate LogInv(log: seq<Sent>, writes: seq<Write>) {
    forall k :: 0 <= k < |log| ==> WrittenFor(log[k].item, writes, log[k].slot, log[k].conn, log[k].since)
  }

  ghost predicate Inv(s: State) {
    && (forall i :: 0 <= i < |s.slots| ==> SlotInv(s.slots[i], i, s.writes))
    && LogInv(s.log, s.writes)
  }

  lemma WrittenForLater(item: Item, writes: seq<Write>, w: Write, i: nat, conn: Option<nat>, since: nat)
    requires WrittenFor(item, writes, i, conn, since)
    ensures WrittenFor(item, writes + [w], i, conn, since)
  {}

  lemma EnqueueKeeps(slot: Slot, i: nat, writes: seq<Write>, w: Write)
    requires SlotInv(slot, i, writes)
    requires i < |w.audience| && w.audience[i] == (if slot.ready then slot.conn else None)
    ensures SlotInv(Enqueue(slot, Item(w.data, |writes|)), i, writes + [w])
  {
    var item, writes' := Item(w.data, |writes|), writes + [w];
    var slot' := Enqueue(slot, item);
    forall k | 0 <= k < |slot'.q|
      ensures WrittenFor(slot'.q[k], writes', i, slot'.conn, slot'.since)
    {
      if k < |slot.q| {
        WrittenForLater(slot.q[k], writes, w, i, slot.conn, slot.since);
      }
    }
    if slot.ready && !slot'.overflowed {
      assert slot'.popped + slot'.q == (slot.popped + slot.q) + [item];
    }
  }

  lemma SendKeeps(slot: Slot, i: nat, writes: seq<Write>, accept: bool)
    requires SlotInv(slot, i, writes)
    ensures SlotInv(SendOne(slot, accept), i, writes)
  {
    if Sendable(slot) {
      assert slot.popped + [slot.q[0]] + slot.q[1..] == slot.popped + slot.q;
    }
  }

  lemma {:induction false} PassLogKeeps(slots: seq<Slot>, accepts: seq<bool>, writes: seq<Write>, n: nat)
    requires |accepts| == |slots| && n <= |slots|
    requires forall i :: 0 <= i < |slots| ==> SlotInv(slots[i], i, writes)
    ensures LogInv(PassLog(slots, accepts, n), writes)
  {
    if n == 0 {
    } else {
      PassLogKeeps(slots, accepts, writes, n - 1);
    }
  }

  /** Every step keeps the slots and the record of sends in order. */
  lemma InvStep(s: State, a: Action)
    requires Inv(s) && Enabled(s, a)
    ensures Inv(Apply(s, a))
  {
    hide SlotInv, LogInv;
    match a {
      case Connect(c) => ConnectKeeps(s, c);
      case Discover(c) => DiscoverKeeps(s, c);
      case Disconnect(c) => DisconnectKeeps(s, c);
      case WriteAll(data) =>
        if AnyReady(s.slots) {
          WriteKeeps(s, data);
        }
      case RunWork(accepts) => RunWorkKeeps(s, accepts);
      case DataSent(i) => DataSentKeeps(s, i);
    }
  }

  lemma ConnectKeeps(s: State, c: nat)
    requires Inv(s)
    ensures Inv(Apply(s, Connect(c)))
  {
    var i := Find(s.slots, None);
    FindFinds(s.slots, None, 0);
    if i < |s.slots| {
      assert SlotInv(s.slots[i].(conn := Some(c)), i, s.writes);
    }
  }

  lemma DiscoverKeeps(s: State, c: nat)
    requires Inv(s)
    ensures Inv(Apply(s, Discover(c)))
  {
    var i := Find(s.slots, Some(c));
    FindFinds(s.slots, Some(c), 0);
    if i < |s.slots| {
      assert SlotInv(Become(s.slots[i], |s.writes|), i, s.writes);
    }
  }

  lemma DisconnectKeeps(s: State, c: nat)
    requires Inv(s)
    ensures Inv(Apply(s, Disconnect(c)))
  {
    var i := Find(s.slots, Some(c));
    if i < |s.slots| {
      assert SlotInv(s.slots[i].(conn := None, q := [], ready := false, inFlight := 0), i, s.writes);
    }
  }

  lemma DataSentKeeps(s: State, i: nat)
    requires Inv(s) && Enabled(s, DataSent(i))
    ensures Inv(Apply(s, DataSent(i)))
  {
    assert SlotInv(s.slots[i].(inFlight := s.slots[i].inFlight - 1), i, s.writes);
  }

  lemma WriteKeeps(s: State, data: seq<Byte>)
    requires Inv(s) && AnyReady(s.slots)
    ensures Inv(Apply(s, WriteAll(data)))
  {
    var w := Write(data, Audience(s.slots));
    forall i | 0 <= i < |s.slots|
      ensures SlotInv(Enqueue(s.slots[i], Item(data, |s.writes|)), i, s.writes + [w])
    {
      EnqueueKeeps(s.slots[i], i, s.writes, w);
    }
    forall k | 0 <= k < |s.log|
      ensures WrittenFor(s.log[k].item, s.writes + [w], s.log[k].slot, s.log[k].conn, s.log[k].since)
    {
      WrittenForLater(s.log[k].item, s.writes, w, s.log[k].slot, s.log[k].conn, s.log[k].since);
    }
    hide SlotInv;
  }

  lemma RunWorkKeeps(s: State, accepts: seq<bool>)
    requires Inv(s) && Enabled(s, RunWork(accepts))
    ensures Inv(Apply(s, RunWork(accepts)))
  {
    forall i | 0 <= i < |s.slots|
      ensures SlotInv(SendOne(s.slots[i], accepts[i]), i, s.writes)
    {
      SendKeeps(s.slots[i], i, s.writes, accepts[i]);
    }
    PassLogKeeps(s.slots, accepts, s.writes, |s.slots|);
    hide SlotInv;
  }

  lemma {:induction false} FindFinds(slots: seq<Slot>, conn: Option<nat>, i: nat)
    requires i <= |slots|
    ensures var k := FindFrom(slots, conn, i);
      && (forall j :: i <= j < k ==> slots[j].conn != conn)
      && (k < |slots| ==> slots[k].conn == conn)
    decreases |slots| - i
  {
    if i == |slots| || slots[i].conn == conn {
    } else {
      FindFinds(slots, conn, i + 1);
    }
  }

  function Init(n: nat): State {
    State(seq(n, i => FREE), false, [], [])
  }

  lemma {:induction false} InvRun(s: State, actions: seq<Action>)
    requires Inv(s) && Legal(s, actions)
    ensures Inv(Run(s, actions))
    decreases |actions|
  {
    if actions == [] {
    } else {
      InvStep(s, actions[0]);
      hide Inv, Enabled, Apply;
      InvRun(Apply(s, actions[0]), actions[1..]);
    }
  }

  /**
   * No stale delivery: in every run, whatever is handed to the stack for a connection was written while that very
   * connection was ready in that very slot.
   */
  lemma NoStaleDelivery(n: nat, actions: seq<Action>, k: nat)
    requires Legal(Init(n), actions) && k < |Run(Init(n), actions).log|
    ensures
      var s := Run(Init(n), actions);
      var e := s.log[k];
      && e.conn.Some? && e.since <= e.item.stamp < |s.writes|
      && s.writes[e.item.stamp].data == e.item.data
      && e.slot < |s.writes[e.item.stamp].audience| && s.writes[e.item.stamp].audience[e.slot] == e.conn
  {
    InvRun(Init(n), actions);
  }

  /** What was sent of `items` from write number `since + skip` on. */
  function From(items: seq<Item>, skip: nat): seq<Item> { if skip <= |items| then items[skip..] else [] }

  /**
   * Broadcast consistency: slots that never overflowed have been sent prefixes of the same sequence of writes, each
   * from the write after which it became ready. So from the later of the two on, one has been sent a prefix of what
   * the other has.
   */
  lemma SlotsAgree(s: State, i: nat, j: nat)
    requires Inv(s) && i < |s.slots| && j < |s.slots|
    requires s.slots[i].ready && s.slots[j].ready && s.slots[i].since <= s.slots[j].since
    requires !s.slots[i].overflowed && !s.slots[j].overflowed
    ensures
      var a, b := s.slots[i], s.slots[j];
      var skip := b.since - a.since;
      && AreWrites(a.popped, s.writes, a.since) && AreWrites(b.popped, s.writes, b.since)
      && From(a.popped + a.q, skip) == b.popped + b.q
      && (From(a.popped, skip) <= b.popped || b.popped <= From(a.popped, skip))
  {
    var a, b := s.slots[i], s.slots[j];
    assert SlotInv(a, i, s.writes) && SlotInv(b, j, s.writes);
    hide SlotInv, WrittenFor;
    forall k | 0 <= k < |a.popped|
      ensures a.popped[k] == (a.popped + a.q)[k]
    {}
    forall k | 0 <= k < |b.popped|
      ensures b.popped[k] == (b.popped + b.q)[k]
    {}
    assert From(a.popped + a.q, b.since - a.since) == b.popped + b.q;
  }

  // ---------------------------------------------------------------- slots and their connections

  /** Slot `i` is the first that holds `conn`. */
  ghost predicate First(slots: seq<Slot>, conn: Option<nat>, i: nat) {
    i < |slots| && slots[i].conn == conn && forall j :: 0 <= j < i ==> slots[j].conn != conn
  }

  lemma FirstIsFound(slots: seq<Slot>, conn: Option<nat>, i: nat)
    requires First(slots, conn, i)
    ensures Find(slots, conn) == i
  {
    FindFinds(slots, conn, 0);
  }

  /** `slots'` differs from `slots` in slot `i` alone. */
  ghost predicate OnlyChanges(slots: seq<Slot>, slots': seq<Slot>, i: nat) {
    |slots'| == |slots| && forall j :: 0 <= j < |slots| && j != i ==> slots'[j] == slots[j]
  }

  /** A new connection gets the first free slot, and is not ready there. */
  lemma ConnectTakesFreeSlot(s: State, c: nat, i: nat)
    requires Inv(s) && First(s.slots, None, i)
    ensures
      var s' := Apply(s, Connect(c));
      && OnlyChanges(s.slots, s'.slots, i) && s' == s.(slots := s'.slots)
      && s'.slots[i].conn == Some(c) && !s'.slots[i].ready && s'.slots[i].q == []
  {
    FirstIsFound(s.slots, None, i);
    assert SlotInv(s.slots[i], i, s.writes);
  }

  /** Discovery makes the slot of that very connection ready, for the writes from now on. */
  lemma DiscoverMakesReady(s: State, c: nat, i: nat)
    requires Inv(s) && First(s.slots, Some(c), i)
    ensures
      var s' := Apply(s, Discover(c));
      && OnlyChanges(s.slots, s'.slots, i) && s' == s.(slots := s'.slots)
      && s'.slots[i].conn == Some(c) && s'.slots[i].ready && s'.slots[i].q == s.slots[i].q
      && (!s.slots[i].ready ==> s'.slots[i].since == |s.writes| && s'.slots[i].popped == [])
  {
    FirstIsFound(s.slots, Some(c), i);
  }

  /** A disconnection frees the slot of that very connection, purges its queue and leaves all others alone. */
  lemma DisconnectFreesSlot(s: State, c: nat, i: nat)
    requires First(s.slots, Some(c), i)
    ensures
      var s' := Apply(s, Disconnect(c));
      && OnlyChanges(s.slots, s'.slots, i) && s' == s.(slots := s'.slots)
      && s'.slots[i].conn == None && !s'.slots[i].ready && s'.slots[i].q == [] && s'.slots[i].inFlight == 0
  {
    FirstIsFound(s.slots, Some(c), i);
  }

  /** A write is queued last for each ready slot with fewer than ten items waiting, and for no other. */
  lemma WriteIsQueued(s: State, data: seq<Byte>, i: nat)
    requires i < |s.slots|
    ensures
      var s' := Apply(s, WriteAll(data));
      && |s'.slots| == |s.slots|
      && s'.slots[i].q == s.slots[i].q +
           (if s.slots[i].ready && |s.slots[i].q| < 10 then [Item(data, |s.writes|)] else [])
      && (s'.slots[i].overflowed <==> s.slots[i].overflowed || (s.slots[i].ready && |s.slots[i].q| >= 10))
      && (s.slots[i].ready ==>
            s'.work && s'.writes[..|s.writes|] == s.writes && |s'.writes| == |s.writes| + 1
            && s'.writes[|s.writes|].data == data)
      && s'.slots[i].conn == s.slots[i].conn && s'.slots[i].ready == s.slots[i].ready
      && ((forall j :: 0 <= j < |s.slots| ==> !s.slots[j].ready) ==> s' == s)
  {
    assert s.slots[i].q + [] == s.slots[i].q;
  }

  ghost predicate HeldIn(slots: seq<Slot>, c: nat, i: nat) { i < |slots| && slots[i].conn == Some(c) }

  /** No slot holds connection `c`. */
  ghost predicate Gone(slots: seq<Slot>, c: nat) { forall i: nat :: !HeldIn(slots, c, i) }

  ghost predicate HeldOnce(slots: seq<Slot>, c: nat) {
    forall i: nat, j: nat :: HeldIn(slots, c, i) && HeldIn(slots, c, j) ==> i == j
  }

  /** A disconnection leaves no slot with the connection exactly if it was not in two of them. */
  lemma GoneIff(s: State, c: nat)
    ensures Gone(Apply(s, Disconnect(c)).slots, c) <==> HeldOnce(s.slots, c)
  {
    var i, s' := Find(s.slots, Some(c)), Apply(s, Disconnect(c));
    FindFinds(s.slots, Some(c), 0);
    if i < |s.slots| {
      DisconnectFreesSlot(s, c, i);
      assert HeldIn(s.slots, c, i);
      if j: nat :| HeldIn(s.slots, c, j) && j != i {
        assert HeldIn(s'.slots, c, j);
      }
      assert forall j: nat :: HeldIn(s'.slots, c, j) ==> HeldIn(s.slots, c, j) && j != i;
    } else {
      assert forall j: nat :: !HeldIn(s.slots, c, j);
    }
  }

  /** A step holds `c` where it was held before, or, if `c` connects, in one more slot. */
  lemma HeldStep(s: State, a: Action, c: nat) returns (k: nat)
    requires Enabled(s, a)
    ensures a != Connect(c) ==> forall i: nat :: HeldIn(Apply(s, a).slots, c, i) ==> HeldIn(s.slots, c, i)
    ensures forall i: nat :: HeldIn(Apply(s, a).slots, c, i) && i != k ==> HeldIn(s.slots, c, i)
  {
    k := if a.Connect? then Find(s.slots, None) else 0;
    hide PassLog, Audience, AnyReady;
  }

  /** What a step hands to the stack goes to connections that are held. */
  lemma {:induction false} PassLogHeld(slots: seq<Slot>, accepts: seq<bool>, n: nat, c: nat)
    requires |accepts| == |slots| && n <= |slots| && Gone(slots, c)
    ensures forall e :: e in PassLog(slots, accepts, n) ==> e.conn != Some(c)
  {
    if n == 0 {
    } else {
      PassLogHeld(slots, accepts, n - 1, c);
      assert !HeldIn(slots, c, n - 1);
    }
  }

  ghost predicate NoMoreTo(before: seq<Sent>, after: seq<Sent>, c: nat) {
    before <= after && forall k :: |before| <= k < |after| ==> after[k].conn != Some(c)
  }

  lemma GoneStep(s: State, a: Action, c: nat)
    requires Enabled(s, a) && Gone(s.slots, c) && a != Connect(c)
    ensures Gone(Apply(s, a).slots, c) && NoMoreTo(s.log, Apply(s, a).log, c)
  {
    var k := HeldStep(s, a, c);
    if a.RunWork? {
      PassLogHeld(s.slots, a.accepts, |s.slots|, c);
      hide PassLog;
      assert Apply(s, a).log == s.log + PassLog(s.slots, a.accepts, |s.slots|);
    }
  }

  /** Until it connects again, nothing is handed to the stack for a connection that is in no slot. */
  lemma {:induction false} GoneRun(s: State, actions: seq<Action>, c: nat)
    requires Legal(s, actions) && Gone(s.slots, c) && Connect(c) !in actions
    ensures Gone(Run(s, actions).slots, c) && NoMoreTo(s.log, Run(s, actions).log, c)
    decreases |actions|
  {
    if actions == [] {
    } else {
      GoneStep(s, actions[0], c);
      hide Gone, Enabled, Apply;
      GoneRun(Apply(s, actions[0]), actions[1..], c);
    }
  }

  /** While `c` connects at most once, from no slot, it is in one slot at most. */
  lemma {:induction false} HeldOnceRun(s: State, actions: seq<Action>, c: nat)
    requires Legal(s, actions) && HeldOnce(s.slots, c)
    requires Connect(c) in actions ==> Gone(s.slots, c) && multiset(actions)[Connect(c)] == 1
    ensures HeldOnce(Run(s, actions).slots, c)
    decreases |actions|
  {
    if actions == [] {
    } else {
      var a, rest, s1 := actions[0], actions[1..], Apply(s, actions[0]);
      assert actions == [a] + rest;
      assert multiset(actions) == multiset{a} + multiset(rest);
      var k := HeldStep(s, a, c);
      if a == Connect(c) {
        assert Connect(c) !in multiset(rest);
      } else if Gone(s.slots, c) {
        GoneStep(s, a, c);
      }
      hide Enabled, Apply;
      HeldOnceRun(s1, rest, c);
    }
  }

  /**
   * Nothing is handed to the stack for a connection after its disconnection, in any run in which it connects once:
   * `before` leads up to the disconnection, `after` follows it.
   */
  lemma NothingAfterDisconnect(n: nat, before: seq<Action>, after: seq<Action>, c: nat)
    requires Legal(Init(n), before) && multiset(before)[Connect(c)] <= 1 && Connect(c) !in after
    requires Legal(Apply(Run(Init(n), before), Disconnect(c)), after)
    ensures
      var s := Apply(Run(Init(n), before), Disconnect(c));
      Gone(Run(s, after).slots, c) && NoMoreTo(s.log, Run(s, after).log, c)
  {
    assert Gone(Init(n).slots, c);
    assert Connect(c) in before ==> Connect(c) in multiset(before);
    HeldOnceRun(Init(n), before, c);
    GoneIff(Run(Init(n), before), c);
    hide Gone, HeldOnce, Apply;
    GoneRun(Apply(Run(Init(n), before), Disconnect(c)), after, c);
  }

  // ---------------------------------------------------------------- what each slot was sent

  /** The items handed to the stack for slot `i` since it became ready after `since` writes. */
  ghost function SentTo(log: seq<Sent>, i: nat, since: nat): seq<Item> {
    if log == [] then []
    else
      var e := log[|log| - 1];
      SentTo(log[..|log| - 1], i, since) + if e.slot == i && e.since == since then [e.item] else []
  }

  lemma SentToNext(log: seq<Sent>, e: Sent, i: nat, since: nat)
    ensures SentTo(log + [e], i, since)
         == SentTo(log, i, since) + if e.slot == i && e.since == since then [e.item] else []
  {
    assert (log + [e])[..|log|] == log;
  }

  /** What a pass takes from the queue of slot `k` for what is asked about slot `i`. */
  function TakenFrom(k: nat, slot: Slot, i: nat, since: nat): seq<Item> {
    if k == i && Sendable(slot) && slot.since == since then [slot.q[0]] else []
  }

  lemma SentToFrom(log: seq<Sent>, k: nat, slot: Slot, accept: bool, i: nat, since: nat)
    ensures SentTo(log + SentFrom(k, slot, accept), i, since) == SentTo(log, i, since) + TakenFrom(k, slot, i, since)
  {
    if Sendable(slot) {
      SentToNext(log, Sent(k, slot.conn, slot.since, slot.q[0], accept), i, since);
    } else {
      assert log + [] == log;
    }
  }

  lemma {:induction false} SentToPass(log: seq<Sent>, slots: seq<Slot>, accepts: seq<bool>, n: nat, i: nat, since: nat)
    requires |accepts| == |slots| && n <= |slots| && i < |slots|
    ensures SentTo(log + PassLog(slots, accepts, n), i, since) ==
      if i < n then SentTo(log, i, since) + TakenFrom(i, slots[i], i, since) else SentTo(log, i, since)
  {
    hide SentTo, SentFrom, Sendable, TakenFrom;
    if n == 0 {
      assert log + [] == log;
    } else {
      var init, last := PassLog(slots, accepts, n - 1), SentFrom(n - 1, slots[n - 1], accepts[n - 1]);
      SentToPass(log, slots, accepts, n - 1, i, since);
      SentToFrom(log + init, n - 1, slots[n - 1], accepts[n - 1], i, since);
      Associative(log, init, last);
      if i != n - 1 {
        TakenFromOther(n - 1, slots[n - 1], i, since);
        AppendNothing(SentTo(log + init, i, since));
      }
    }
  }

  lemma TakenFromOther(k: nat, slot: Slot, i: nat, since: nat)
    requires k != i
    ensures TakenFrom(k, slot, i, since) == []
  {}

  lemma AppendNothing(items: seq<Item>)
    ensures items + [] == items
  {}

  lemma {:induction false} NothingSentYet(log: seq<Sent>, writes: seq<Write>, i: nat)
    requires LogInv(log, writes)
    ensures SentTo(log, i, |writes|) == []
  {
    if log == [] {
    } else {
      assert WrittenFor(log[|log| - 1].item, writes, log[|log| - 1].slot, log[|log| - 1].conn, log[|log| - 1].since);
      NothingSentYet(log[..|log| - 1], writes, i);
    }
  }

  /** What the worker took from the queue of a ready slot is what it handed to the stack for it. */
  ghost predicate Handed(s: State) {
    forall i :: 0 <= i < |s.slots| && s.slots[i].ready ==> SentTo(s.log, i, s.slots[i].since) == s.slots[i].popped
  }

  lemma HandedStep(s: State, a: Action)
    requires Inv(s) && Handed(s) && Enabled(s, a)
    ensures Handed(Apply(s, a))
  {
    hide SlotInv, SentTo, LogInv;
    match a {
      case RunWork(accepts) =>
        forall i | 0 <= i < |s.slots| && s.slots[i].ready
          ensures SentTo(Apply(s, a).log, i, s.slots[i].since) == SendOne(s.slots[i], accepts[i]).popped
        {
          SentToPass(s.log, s.slots, accepts, |s.slots|, i, s.slots[i].since);
        }
      case Discover(c) => NothingSentYet(s.log, s.writes, Find(s.slots, Some(c)));
      case Connect(c) =>
        var i := Find(s.slots, None);
        FindFinds(s.slots, None, 0);
        assert i < |s.slots| ==> SlotInv(s.slots[i], i, s.writes);
      case _ =>
    }
  }

  lemma {:induction false} HandedRun(s: State, actions: seq<Action>)
    requires Inv(s) && Handed(s) && Legal(s, actions)
    ensures Inv(Run(s, actions)) && Handed(Run(s, actions))
    decreases |actions|
  {
    if actions == [] {
    } else {
      InvStep(s, actions[0]);
      HandedStep(s, actions[0]);
      hide Inv, Handed, Enabled, Apply;
      HandedRun(Apply(s, actions[0]), actions[1..]);
    }
  }

  /**
   * In every run, what was handed to the stack for a ready slot that never overflowed is, in order and without a gap or
   * a repetition, what was written since it became ready, up to what is still queued.
   */
  lemma SentInOrder(n: nat, actions: seq<Action>, i: nat)
    requires Legal(Init(n), actions)
    requires
      var s := Run(Init(n), actions);
      i < |s.slots| && s.slots[i].ready && !s.slots[i].overflowed
    ensures
      var s := Run(Init(n), actions);
      var slot := s.slots[i];
      var sent := SentTo(s.log, i, slot.since);
      AreWrites(sent + slot.q, s.writes, slot.since) && |sent + slot.q| == |s.writes| - slot.since
  {
    HandedRun(Init(n), actions);
    var s := Run(Init(n), actions);
    assert SlotInv(s.slots[i], i, s.writes);
  }

  // ---------------------------------------------------------------- progress

  /** Whatever is queued will be looked at again: the worker is due, or a confirmation that submits it is. */
  ghost predicate NotStuck(s: State) {
    forall i :: 0 <= i < |s.slots| && s.slots[i].q != [] ==> s.work || 0 < s.slots[i].inFlight
  }

  /** The stack refuses a send only while an earlier one on the same connection is in flight. */
  ghost predicate Honest(slots: seq<Slot>, accepts: seq<bool>) {
    |accepts| == |slots|
    && forall i :: 0 <= i < |slots| && Sendable(slots[i]) ==> accepts[i] || 0 < slots[i].inFlight
  }

  /** A worker pass leaves no queue stuck iff every queue it does not empty has a send in flight afterwards. */
  lemma RunWorkNotStuckIff(s: State, accepts: seq<bool>)
    requires Inv(s) && Enabled(s, RunWork(accepts))
    ensures NotStuck(Apply(s, RunWork(accepts))) <==>
      forall i :: 0 <= i < |s.slots| && 2 <= |s.slots[i].q| ==> accepts[i] || 0 < s.slots[i].inFlight
  {
    var s' := Apply(s, RunWork(accepts));
    forall i | 0 <= i < |s.slots|
      ensures s'.slots[i].q != [] <==> 2 <= |s.slots[i].q|
      ensures 2 <= |s.slots[i].q| ==> (0 < s'.slots[i].inFlight <==> accepts[i] || 0 < s.slots[i].inFlight)
    {
      assert SlotInv(s.slots[i], i, s.writes);
    }
  }

  lemma NotStuckStep(s: State, a: Action)
    requires Inv(s) && NotStuck(s) && Enabled(s, a)
    requires a.RunWork? ==> Honest(s.slots, a.accepts)
    ensures NotStuck(Apply(s, a))
  {
    match a {
      case RunWork(accepts) =>
        RunWorkNotStuckIff(s, accepts);
        forall i | 0 <= i < |s.slots| && 2 <= |s.slots[i].q|
          ensures accepts[i] || 0 < s.slots[i].inFlight
        {
          assert SlotInv(s.slots[i], i, s.writes);
        }
      case Connect(c) => hide SlotInv; FindFinds(s.slots, None, 0);
      case _ => hide SlotInv;
    }
  }

  ghost predicate AllHonest(s: State, actions: seq<Action>)
    requires Legal(s, actions)
    decreases |actions|
  {
    actions == [] ||
    ((actions[0].RunWork? ==> Honest(s.slots, actions[0].accepts)) && AllHonest(Apply(s, actions[0]), actions[1..]))
  }

  /** In every run over an honest stack no queue is ever stuck. */
  lemma {:induction false} NeverStuck(s: State, actions: seq<Action>)
    requires Inv(s) && NotStuck(s) && Legal(s, actions) && AllHonest(s, actions)
    ensures Inv(Run(s, actions)) && NotStuck(Run(s, actions))
    decreases |actions|
  {
    if actions == [] {
    } else {
      InvStep(s, actions[0]);
      NotStuckStep(s, actions[0]);
      hide Inv, NotStuck, Enabled, Apply, Honest;
      NeverStuck(Apply(s, actions[0]), actions[1..]);
    }
  }

  ghost function Weight(slots: seq<Slot>): nat {
    if slots == [] then 0
    else
      var slot := slots[|slots| - 1];
      Weight(slots[..|slots| - 1]) + 3 * |slot.q| + 2 * slot.inFlight
  }

  ghost function Measure(s: State): nat { Weight(s.slots) + if s.work then 1 else 0 }

  predicate Drains(a: Action) { a.RunWork? || a.DataSent? }

  lemma {:induction false} SendPassLightens(slots: seq<Slot>, accepts: seq<bool>)
    requires |accepts| == |slots|
    ensures Weight(SendPass(slots, accepts)) <= Weight(slots)
  {
    if slots == [] {
    } else {
      var n := |slots| - 1;
      SendPassLightens(slots[..n], accepts[..n]);
      assert SendPass(slots, accepts)[..n] == SendPass(slots[..n], accepts[..n]);
    }
  }

  lemma {:induction false} WeightUpdate(slots: seq<Slot>, i: nat, slot: Slot)
    requires i < |slots|
    ensures Weight(slots[i := slot]) ==
      Weight(slots) - 3 * |slots[i].q| - 2 * slots[i].inFlight + 3 * |slot.q| + 2 * slot.inFlight
  {
    var n := |slots| - 1;
    if i == n {
      assert slots[i := slot][..n] == slots[..n];
    } else {
      WeightUpdate(slots[..n], i, slot);
      assert slots[i := slot][..n] == slots[..n][i := slot];
    }
  }

  lemma DrainStep(s: State, a: Action)
    requires Drains(a) && Enabled(s, a)
    ensures Measure(Apply(s, a)) < Measure(s)
  {
    match a {
      case RunWork(accepts) => SendPassLightens(s.slots, accepts);
      case DataSent(i) => WeightUpdate(s.slots, i, s.slots[i].(inFlight := s.slots[i].inFlight - 1));
    }
  }

  /**
   * With writes stopped, worker passes and confirmations come to an end after at most `Measure(s)` steps,
   * and over an honest stack they end with every queue empty.
   */
  lemma {:induction false} DrainingEnds(s: State, actions: seq<Action>)
    requires Inv(s) && NotStuck(s) && Legal(s, actions) && AllHonest(s, actions)
    requires forall k :: 0 <= k < |actions| ==> Drains(actions[k])
    ensures |actions| + Measure(Run(s, actions)) <= Measure(s)
    ensures
      var s' := Run(s, actions);
      (!s'.work && forall i :: 0 <= i < |s'.slots| ==> s'.slots[i].inFlight == 0)
      ==> forall i :: 0 <= i < |s'.slots| ==> s'.slots[i].q == []
    decreases |actions|
  {
    if actions == [] {
    } else {
      DrainStep(s, actions[0]);
      InvStep(s, actions[0]);
      NotStuckStep(s, actions[0]);
      hide Inv, Enabled, Apply, Honest, Measure;
      DrainingEnds(Apply(s, actions[0]), actions[1..]);
    }
  }

  // ---------------------------------------------------------------- dropped payloads

  ghost predicate Refuses(log: seq<Sent>) { exists k :: 0 <= k < |log| && !log[k].accepted }

  /** Some payload the worker takes from a queue in this pass is refused, and is then neither queued nor in flight. */
  ghost predicate Drops(s: State, accepts: seq<bool>)
    requires Enabled(s, RunWork(accepts))
  {
    Refuses(Apply(s, RunWork(accepts)).log[|s.log|..])
  }

  lemma RefusesMore(log: seq<Sent>, more: seq<Sent>)
    ensures Refuses(log + more) <==> Refuses(log) || Refuses(more)
  {
    if k :| 0 <= k < |log| && !log[k].accepted {
      assert !(log + more)[k].accepted;
    }
    if k :| 0 <= k < |more| && !more[k].accepted {
      assert !(log + more)[|log| + k].accepted;
    }
  }

  lemma {:induction false} PassLogRefusesIff(slots: seq<Slot>, accepts: seq<bool>, n: nat)
    requires |accepts| == |slots| && n <= |slots|
    ensures Refuses(PassLog(slots, accepts, n)) <==> exists i :: 0 <= i < n && Sendable(slots[i]) && !accepts[i]
  {
    if n == 0 {
    } else {
      var slot := slots[n - 1];
      var sent := SentFrom(n - 1, slot, accepts[n - 1]);
      PassLogRefusesIff(slots, accepts, n - 1);
      RefusesMore(PassLog(slots, accepts, n - 1), sent);
      assert Sendable(slot) ==> sent[0].accepted == accepts[n - 1];
    }
  }

  lemma DropsIff(s: State, accepts: seq<bool>)
    requires Enabled(s, RunWork(accepts))
    ensures Drops(s, accepts) <==> exists i :: 0 <= i < |s.slots| && Sendable(s.slots[i]) && !accepts[i]
  {
    PassLogRefusesIff(s.slots, accepts, |s.slots|);
    hide PassLog, Sendable, Refuses;
    assert Apply(s, RunWork(accepts)).log[|s.log|..] == PassLog(s.slots, accepts, |s.slots|);
  }

  lemma {:induction false} PassLogHas(slots: seq<Slot>, accepts: seq<bool>, n: nat, i: nat)
    requires |accepts| == |slots| && i < n <= |slots| && Sendable(slots[i])
    ensures Sent(i, slots[i].conn, slots[i].since, slots[i].q[0], accepts[i]) in PassLog(slots, accepts, n)
    decreases n
  {
    if i < n - 1 {
      PassLogHas(slots, accepts, n - 1, i);
    }
  }

  /** A refused payload is gone: it has left its queue, and nothing more is in flight. */
  lemma PayloadIsDropped(s: State, accepts: seq<bool>, i: nat)
    requires Enabled(s, RunWork(accepts)) && i < |s.slots| && Sendable(s.slots[i]) && !accepts[i]
    ensures
      var s' := Apply(s, RunWork(accepts));
      && s'.slots[i].q == s.slots[i].q[1..] && s'.slots[i].inFlight == s.slots[i].inFlight
      && Sent(i, s.slots[i].conn, s.slots[i].since, s.slots[i].q[0], false) in s'.log
  {
    PassLogHas(s.slots, accepts, |s.slots|, i);
  }

  /**
   * Not stuck is not the same as delivered: when the worker runs, an honest stack can make it drop a payload exactly
   * if there is one to send on a connection with a send in flight.
   */
  lemma PayloadCanBeDroppedIff(s: State)
    requires s.work
    ensures (exists accepts :: Honest(s.slots, accepts) && Drops(s, accepts)) <==>
      exists i :: 0 <= i < |s.slots| && Sendable(s.slots[i]) && 0 < s.slots[i].inFlight
  {
    hide Drops, Apply;
    if accepts :| Honest(s.slots, accepts) && Drops(s, accepts) {
      DropsIff(s, accepts);
    }
    if i :| 0 <= i < |s.slots| && Sendable(s.slots[i]) && 0 < s.slots[i].inFlight {
      var accepts := seq(|s.slots|, j => j != i);
      assert Honest(s.slots, accepts) && !accepts[i];
      DropsIff(s, accepts);
    }
  }

  lemma {:induction false} RunNext(s: State, actions: seq<Action>, a: Action)
    requires Legal(s, actions) && Enabled(Run(s, actions), a)
    ensures Legal(s, actions + [a]) && Run(s, actions + [a]) == Apply(Run(s, actions), a)
    ensures AllHonest(s, actions) && (a.RunWork? ==> Honest(Run(s, actions).slots, a.accepts)) ==>
      AllHonest(s, actions + [a])
    decreases |actions|
  {
    hide Enabled, Apply, Honest;
    if actions == [] {
      assert actions + [a] == [a] && [a][1..] == [];
    } else {
      RunNext(Apply(s, actions[0]), actions[1..], a);
      assert (actions + [a])[1..] == actions[1..] + [a];
    }
  }

  /** One step more of a run over an honest stack. */
  lemma Then(s: State, actions: seq<Action>, s': State, a: Action)
    returns (actions': seq<Action>, s'': State)
    requires Legal(s, actions) && AllHonest(s, actions) && Run(s, actions) == s' && Enabled(s', a)
    requires a.RunWork? ==> Honest(s'.slots, a.accepts)
    ensures actions' == actions + [a] && s'' == Apply(s', a)
    ensures Legal(s, actions') && AllHonest(s, actions') && Run(s, actions') == s''
  {
    RunNext(s, actions, a);
    return actions + [a], Apply(s', a);
  }

  /** The first connection becomes ready in the first slot. */
  lemma ReadyIsReachable(n: nat, c: nat) returns (actions: seq<Action>, s: State)
    requires 0 < n
    ensures Legal(Init(n), actions) && AllHonest(Init(n), actions) && Run(Init(n), actions) == s
    ensures |s.slots| == n && s.slots[0] == FREE.(conn := Some(c), ready := true)
  {
    var s0 := Init(n);
    actions, s := [], s0;
    assert Legal(s0, actions) && AllHonest(s0, actions) && Run(s0, actions) == s0;
    hide Legal, AllHonest, Run, PassLog;
    actions, s := Then(s0, actions, s, Connect(c));
    assert s.slots[0] == FREE.(conn := Some(c)) && s.writes == [];
    actions, s := Then(s0, actions, s, Discover(c));
  }

  /** Two writes in quick succession make a payload droppable, for any first connection. */
  lemma DropIsReachable(n: nat, c: nat, data: seq<Byte>) returns (actions: seq<Action>, accepts: seq<bool>)
    requires 0 < n
    ensures Legal(Init(n), actions) && AllHonest(Init(n), actions)
    ensures
      var s := Run(Init(n), actions);
      Enabled(s, RunWork(accepts)) && Honest(s.slots, accepts) && Drops(s, accepts)
  {
    var s0, s := Init(n), Init(n);
    hide Legal, AllHonest, Run, PassLog, Drops, Init, Find;
    actions, s := ReadyIsReachable(n, c);
    actions, s := Then(s0, actions, s, WriteAll(data));
    assert s.work && Sendable(s.slots[0]) && |s.slots[0].q| == 1;
    actions, s := Then(s0, actions, s, RunWork(seq(n, j => true)));
    assert s.slots[0].ready && s.slots[0].conn == Some(c) && s.slots[0].q == [] && 0 < s.slots[0].inFlight;
    actions, s := Then(s0, actions, s, WriteAll(data));
    assert s.work && Sendable(s.slots[0]) && 0 < s.slots[0].inFlight;
    PayloadCanBeDroppedIff(s);
    accepts :| Honest(s.slots, accepts) && Drops(s, accepts);
  }
}
