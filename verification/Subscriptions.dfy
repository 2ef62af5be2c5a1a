/** Event subscriptions: a table of at most twelve named handlers, and the queue of received events it serves. */
module Subscriptions {
  import opened Bytes

  const MAX_SUBSCRIPTIONS := 12
  const EVENT_QUEUE_SIZE := 20

  /** A stored subscription: the `name.size` first octets of the name buffer, and a handler. */
  datatype Entry = Entry(name: seq<Byte>, handler: nat)

  /** What is stored for a C string: its length with terminator is kept in one octet, and so many octets are copied. */
  function Key(name: seq<Byte>): seq<Byte> {
    (name + [0])[..(|name| + 1) % 0x100]
  }

  /** Up to 254 octets a name is stored whole, with its terminator; from 255 on the length octet wraps around. */
  lemma KeyIsWholeIff(name: seq<Byte>)
    requires CString(name)
    ensures Key(name) == name + [0] <==> |name| <= 254
    ensures 0 in Key(name) <==> |name| <= 254
  {
    if |name| <= 254 {
      assert Key(name) == name + [0];
    } else {
      assert Key(name) <= name;
    }
  }

  lemma ShortKey(name: seq<Byte>)
    requires |name| <= 254
    ensures Key(name) == name + [0] && (|name| + 1) % 0x100 == |name| + 1
  {}

  lemma KeyIsInjective(a: seq<Byte>, b: seq<Byte>)
    requires |a| <= 254 && |b| <= 254
    ensures Key(a) == Key(b) <==> a == b
  {
    assert Key(a) == a + [0] && Key(b) == b + [0];
    if Key(a) == Key(b) {
      assert a == Key(a)[..|a|] && b == Key(b)[..|b|];
    }
  }

  /** A name has its stored form to itself exactly up to 254 octets; every longer one shares it with another name. */
  lemma KeyIsOwnIff(a: seq<Byte>)
    requires CString(a)
    ensures (forall b: seq<Byte> :: CString(b) && Key(a) == Key(b) ==> a == b) <==> |a| <= 254
  {
    KeyIsWholeIff(a);
    if |a| <= 254 {
      forall b: seq<Byte> | CString(b) && Key(a) == Key(b)
        ensures a == b
      {
        KeyIsWholeIff(b);
        KeyIsInjective(a, b);
      }
    } else {
      var b := LongerWithSameKey(a);
    }
  }

  lemma LongerWithSameKey(a: seq<Byte>) returns (b: seq<Byte>)
    requires CString(a) && 255 <= |a|
    ensures CString(b) && b != a && Key(a) == Key(b)
  {
    b := a + seq(0x100, i => 1);
    assert |b| + 1 == |a| + 1 + 0x100;
    assert (|b| + 1) % 0x100 == (|a| + 1) % 0x100;
    var n := (|a| + 1) % 0x100;
    assert n <= |a| && (b + [0])[..n] == a[..n] && (a + [0])[..n] == a[..n];
  }

  ghost predicate Distinct(es: seq<Entry>) {
    forall i, j :: 0 <= i < j < |es| ==> es[i].name != es[j].name
  }

  /** The table as a map from stored names to handlers. */
  ghost function Table(es: seq<Entry>): map<seq<Byte>, nat> {
    if es == [] then map[] else Table(es[..|es| - 1])[es[|es| - 1].name := es[|es| - 1].handler]
  }

  lemma TableLast(es: seq<Entry>)
    requires Distinct(es) && es != []
    ensures
      var n := |es| - 1;
      && Table(es) == Table(es[..n])[es[n].name := es[n].handler]
      && Distinct(es[..n])
      && forall i :: 0 <= i < n ==> es[i].name != es[n].name
  {}

  lemma {:induction false} TableHas(es: seq<Entry>, i: nat)
    requires Distinct(es) && i < |es|
    ensures es[i].name in Table(es) && Table(es)[es[i].name] == es[i].handler
  {
    TableLast(es);
    if i < |es| - 1 {
      TableHas(es[..|es| - 1], i);
    }
  }

  lemma {:induction false} TableHasOnly(es: seq<Entry>, k: seq<Byte>) returns (i: nat)
    requires k in Table(es)
    ensures i < |es| && es[i].name == k
  {
    i := |es| - 1;
    if es[i].name != k {
      i := TableHasOnly(es[..i], k);
    }
  }

  lemma {:induction false} TableSize(es: seq<Entry>)
    requires Distinct(es)
    ensures |Table(es)| == |es|
  {
    if es == [] {
    } else {
      var n := |es| - 1;
      TableLast(es);
      TableSize(es[..n]);
      if es[n].name in Table(es[..n]) {
        var i := TableHasOnly(es[..n], es[n].name);
      }
    }
  }

  /** The map holds exactly the entries. */
  lemma TableOf(es: seq<Entry>)
    requires Distinct(es)
    ensures forall i :: 0 <= i < |es| ==> es[i].name in Table(es) && Table(es)[es[i].name] == es[i].handler
    ensures forall k :: k in Table(es) ==> exists i :: 0 <= i < |es| && es[i].name == k
    ensures |Table(es)| == |es|
  {
    TableSize(es);
    hide Table, Distinct;
    forall i | 0 <= i < |es|
      ensures es[i].name in Table(es) && Table(es)[es[i].name] == es[i].handler
    {
      TableHas(es, i);
    }
    forall k | k in Table(es)
      ensures exists i :: 0 <= i < |es| && es[i].name == k
    {
      var i := TableHasOnly(es, k);
    }
  }

  lemma {:induction false} TableReplace(es: seq<Entry>, i: nat, e: Entry)
    requires Distinct(es) && i < |es| && es[i].name == e.name
    ensures Distinct(es[i := e]) && Table(es[i := e]) == Table(es)[e.name := e.handler]
  {
    var n := |es| - 1;
    if i == n {
      assert es[i := e][..n] == es[..n];
    } else {
      TableReplace(es[..n], i, e);
      assert es[i := e][..n] == es[..n][i := e];
      assert es[n].name != e.name;
    }
  }

  lemma TableExtend(es: seq<Entry>, e: Entry)
    requires Distinct(es) && e.name !in Table(es)
    ensures Distinct(es + [e]) && Table(es + [e]) == Table(es)[e.name := e.handler]
  {
    TableOf(es);
    assert (es + [e])[..|es|] == es;
  }

  // ---------------------------------------------------------------- any sequence of subscriptions

  datatype Request = Request(name: seq<Byte>, handler: nat)

  /** A request is accepted when its stored name fits and the table is not full, whether or not the name is known. */
  predicate Accepts(count: nat, nameSize: nat, name: seq<Byte>) {
    (|name| + 1) % 0x100 <= nameSize && count < MAX_SUBSCRIPTIONS
  }

  /** The handlers after `requests`, as a bounded map. */
  ghost function After(requests: seq<Request>, nameSize: nat): map<seq<Byte>, nat> {
    if requests == [] then map[]
    else
      var m, r := After(requests[..|requests| - 1], nameSize), requests[|requests| - 1];
      if Accepts(|m|, nameSize, r.name) then m[Key(r.name) := r.handler] else m
  }

  lemma AfterNext(requests: seq<Request>, r: Request, nameSize: nat)
    ensures
      var m := After(requests, nameSize);
      After(requests + [r], nameSize) == if Accepts(|m|, nameSize, r.name) then m[Key(r.name) := r.handler] else m
  {
    assert (requests + [r])[..|requests|] == requests;
  }

  /**
   * Whatever was subscribed: the table holds `handler` under `key` exactly if that is the handler of the last accepted
   * request for `key`. So no accepted request is lost, and nothing else is there.
   */
  lemma {:induction false} LastAcceptedWins(requests: seq<Request>, nameSize: nat, key: seq<Byte>, handler: nat)
    ensures key in After(requests, nameSize) && After(requests, nameSize)[key] == handler <==>
      exists i: nat :: LastAccepted(requests, nameSize, key, i) && requests[i].handler == handler
  {
    hide Accepts, Key;
    if requests == [] {
    } else {
      var n := |requests| - 1;
      var init, r := requests[..n], requests[n];
      if AcceptedAt(requests, nameSize, n) && Key(r.name) == key {
        assert LastAccepted(requests, nameSize, key, n);
      } else {
        LastAcceptedWins(init, nameSize, key, handler);
        LastAcceptedExtends(requests, nameSize, key);
      }
    }
  }

  /** Request `i` is for the name stored as `key`, was accepted, and no later one for that name was. */
  ghost predicate LastAccepted(requests: seq<Request>, nameSize: nat, key: seq<Byte>, i: nat) {
    && i < |requests| && Key(requests[i].name) == key && AcceptedAt(requests, nameSize, i)
    && forall j :: i < j < |requests| && Key(requests[j].name) == key ==> !AcceptedAt(requests, nameSize, j)
  }

  ghost predicate AcceptedAt(requests: seq<Request>, nameSize: nat, i: nat)
    requires i < |requests|
  {
    Accepts(|After(requests[..i], nameSize)|, nameSize, requests[i].name)
  }

  /** A request for a name of at most 254 octets that fits is granted as long as fewer than twelve names are stored. */
  lemma GrantedWhileThereIsRoom(requests: seq<Request>, r: Request, nameSize: nat)
    requires |r.name| <= 254 && |r.name| + 1 <= nameSize
    ensures
      var m, m' := After(requests, nameSize), After(requests + [r], nameSize);
      m' == if |m| < 12 then m[r.name + [0] := r.handler] else m
  {
    hide After, Key;
    AfterNext(requests, r, nameSize);
    AfterIsBounded(requests, nameSize);
    ShortKey(r.name);
  }

  /** A full table refuses every request, and a name that does not fit is refused by every table. */
  lemma RefusedWhenFullOrTooLong(requests: seq<Request>, r: Request, nameSize: nat)
    requires |After(requests, nameSize)| == 12 || (|r.name| <= 254 && nameSize < |r.name| + 1)
    ensures After(requests + [r], nameSize) == After(requests, nameSize)
  {
    hide After, Key;
    AfterNext(requests, r, nameSize);
    if |r.name| <= 254 {
      ShortKey(r.name);
    }
  }

  lemma LastAcceptedExtends(requests: seq<Request>, nameSize: nat, key: seq<Byte>)
    requires requests != []
    requires var n := |requests| - 1; !(Key(requests[n].name) == key && AcceptedAt(requests, nameSize, n))
    ensures
      var init := requests[..|requests| - 1];
      forall i: nat :: LastAccepted(requests, nameSize, key, i) <==> LastAccepted(init, nameSize, key, i)
  {
    hide Accepts, Key, After;
    var n := |requests| - 1;
    var init := requests[..n];
    forall j | 0 <= j < n
      ensures AcceptedAt(requests, nameSize, j) <==> AcceptedAt(init, nameSize, j)
      ensures requests[j] == init[j]
    {
      assert requests[..j] == init[..j];
    }
  }

  lemma {:induction false} AfterIsBounded(requests: seq<Request>, nameSize: nat)
    ensures |After(requests, nameSize)| <= MAX_SUBSCRIPTIONS
  {
    if requests == [] {
    } else {
      AfterIsBounded(requests[..|requests| - 1], nameSize);
    }
  }

  // ---------------------------------------------------------------- the module's state

  datatype Event = Event(name: seq<Byte>, data: seq<Byte>)

  datatype Delivery = Raw(event: Event) | Handled(handler: nat, event: Event)

  ghost function DeliveriesOf(event: Event, raw: bool, table: map<seq<Byte>, nat>): seq<Delivery> {
    (if raw then [Raw(event)] else []) + (if event.name in table then [Handled(table[event.name], event)] else [])
  }

  /** The raw handler sees each event first, then the subscriber of its name, event after event. */
  ghost function Deliveries(events: seq<Event>, raw: bool, table: map<seq<Byte>, nat>): seq<Delivery> {
    if events == [] then [] else DeliveriesOf(events[0], raw, table) + Deliveries(events[1..], raw, table)
  }

  /** One event: the raw handler, and directly behind it the subscriber. */
  lemma OneDelivery(event: Event, raw: bool, table: map<seq<Byte>, nat>)
    ensures Deliveries([event], raw, table) ==
      if event.name !in table then (if raw then [Raw(event)] else [])
      else if raw then [Raw(event), Handled(table[event.name], event)]
      else [Handled(table[event.name], event)]
  {
    assert [event][1..] == [];
  }

  /** The events given to the raw handler, in order. */
  ghost function RawEvents(log: seq<Delivery>): seq<Event> {
    if log == [] then [] else (if log[0].Raw? then [log[0].event] else []) + RawEvents(log[1..])
  }

  /** The calls of subscribers, in order. */
  ghost function HandledOnes(log: seq<Delivery>): seq<Delivery> {
    if log == [] then [] else (if log[0].Handled? then [log[0]] else []) + HandledOnes(log[1..])
  }

  /** The events whose name is subscribed, in order. */
  ghost function Known(events: seq<Event>, table: map<seq<Byte>, nat>): seq<Event> {
    if events == [] then []
    else (if events[0].name in table then [events[0]] else []) + Known(events[1..], table)
  }

  /** Each subscriber is called directly after the raw handler saw the same event. */
  ghost predicate RawFirst(log: seq<Delivery>) {
    forall k :: 0 <= k < |log| && log[k].Handled? ==> 0 < k && log[k - 1] == Raw(log[k].event)
  }

  lemma OfNext(log: seq<Delivery>)
    requires log != []
    ensures RawEvents(log) == (if log[0].Raw? then [log[0].event] else []) + RawEvents(log[1..])
    ensures HandledOnes(log) == (if log[0].Handled? then [log[0]] else []) + HandledOnes(log[1..])
  {}

  lemma {:induction false} SplitOff(first: seq<Delivery>, rest: seq<Delivery>)
    ensures RawEvents(first + rest) == RawEvents(first) + RawEvents(rest)
    ensures HandledOnes(first + rest) == HandledOnes(first) + HandledOnes(rest)
  {
    hide RawEvents, HandledOnes;
    if first == [] {
      OfNone();
      assert first + rest == rest;
      assert [] + RawEvents(rest) == RawEvents(rest) && [] + HandledOnes(rest) == HandledOnes(rest);
    } else {
      var d := first[0];
      OfNext(first);
      OfNext(first + rest);
      SplitOff(first[1..], rest);
      assert (first + rest)[1..] == first[1..] + rest;
      Associative(if d.Raw? then [d.event] else [], RawEvents(first[1..]), RawEvents(rest));
      Associative(if d.Handled? then [d] else [], HandledOnes(first[1..]), HandledOnes(rest));
    }
  }

  lemma OfOne(d: Delivery)
    ensures RawEvents([d]) == (if d.Raw? then [d.event] else [])
    ensures HandledOnes([d]) == if d.Handled? then [d] else []
  {
    assert [d][1..] == [];
  }

  lemma EventIsDelivered(event: Event, raw: bool, table: map<seq<Byte>, nat>)
    ensures
      var first := DeliveriesOf(event, raw, table);
      && RawEvents(first) == (if raw then [event] else [])
      && HandledOnes(first) == (if event.name in table then [Handled(table[event.name], event)] else [])
      && (raw ==> RawFirst(first))
  {
    OfOne(Raw(event));
    if event.name in table {
      OfOne(Handled(table[event.name], event));
    }
    hide RawEvents, HandledOnes;
    assert RawEvents([]) == [] && HandledOnes([]) == [] by {
      OfNone();
    }
    SplitOff(if raw then [Raw(event)] else [],
             if event.name in table then [Handled(table[event.name], event)] else []);
  }

  lemma OfNone()
    ensures RawEvents([]) == [] && HandledOnes([]) == []
  {}

  lemma DeliveriesNext(events: seq<Event>, raw: bool, table: map<seq<Byte>, nat>)
    requires events != []
    ensures Deliveries(events, raw, table)
         == DeliveriesOf(events[0], raw, table) + Deliveries(events[1..], raw, table)
    ensures Known(events, table) == (if events[0].name in table then [events[0]] else []) + Known(events[1..], table)
    ensures events == [events[0]] + events[1..]
  {}

  lemma RawFirstJoins(a: seq<Delivery>, b: seq<Delivery>)
    requires RawFirst(a) && RawFirst(b)
    ensures RawFirst(a + b)
  {
    var log := a + b;
    forall k | 0 <= k < |log| && log[k].Handled?
      ensures 0 < k && log[k - 1] == Raw(log[k].event)
    {
      if |a| <= k {
        assert b[k - |a|].Handled?;
      }
    }
  }

  /** The raw handler, if there is one, gets all events in order, and each of them before the subscriber does. */
  lemma {:induction false} RawHandlerGetsAll(events: seq<Event>, raw: bool, table: map<seq<Byte>, nat>)
    ensures
      var log := Deliveries(events, raw, table);
      RawEvents(log) == (if raw then events else []) && (raw ==> RawFirst(log))
  {
    if events == [] {
    } else {
      var first, rest := DeliveriesOf(events[0], raw, table), Deliveries(events[1..], raw, table);
      EventIsDelivered(events[0], raw, table);
      RawHandlerGetsAll(events[1..], raw, table);
      DeliveriesNext(events, raw, table);
      hide RawEvents, DeliveriesOf, Deliveries, RawFirst;
      SplitOff(first, rest);
      if raw {
        RawFirstJoins(first, rest);
      }
    }
  }

  /** The subscribers get exactly the events whose name is subscribed, in order, raw handler or not. */
  lemma {:induction false} SubscribersGetKnown(events: seq<Event>, raw: bool, table: map<seq<Byte>, nat>)
    ensures
      var handled, known := HandledOnes(Deliveries(events, raw, table)), Known(events, table);
      && |handled| == |known|
      && forall k :: 0 <= k < |known| ==>
           known[k].name in table && handled[k] == Handled(table[known[k].name], known[k])
  {
    if events == [] {
    } else {
      var first, rest := DeliveriesOf(events[0], raw, table), Deliveries(events[1..], raw, table);
      EventIsDelivered(events[0], raw, table);
      SubscribersGetKnown(events[1..], raw, table);
      DeliveriesNext(events, raw, table);
      hide HandledOnes, DeliveriesOf, Deliveries, Known;
      SplitOff(first, rest);
    }
  }

  lemma NextDelivery(log: seq<Delivery>, events: seq<Event>, raw: bool, table: map<seq<Byte>, nat>)
    requires events != []
    ensures forall rest :: events == [events[0]] + rest ==>
      log + Deliveries(events, raw, table) == log + DeliveriesOf(events[0], raw, table) + Deliveries(rest, raw, table)
  {}

  lemma NoDelivery(log: seq<Delivery>, raw: bool, table: map<seq<Byte>, nat>)
    ensures log + Deliveries([], raw, table) == log
  {}

  class BleM {
    // The size of the name buffer in a subscription.
    const nameSize: nat
    const subscribers: array<Entry>
    var count: nat
    var eventQueue: seq<Event>
    var rawHandler: bool
    var sendWork: bool

    // History: the subscriptions asked for, the events let into the queue, the events handled, the handlers called.
    ghost var requests: seq<Request>
    ghost var accepted: seq<Event>
    ghost var handled: seq<Event>
    ghost var log: seq<Delivery>

    constructor (nameSize: nat)
      ensures Valid() && count == 0 && requests == [] && eventQueue == [] && log == []
    {
      this.nameSize := nameSize;
      subscribers := new Entry[MAX_SUBSCRIPTIONS](i => Entry([], 0));
      count, eventQueue, rawHandler, sendWork := 0, [], false, false;
      requests, accepted, handled, log := [], [], [], [];
    }

    ghost function Entries(): seq<Entry>
      reads this`count, subscribers
      requires count <= subscribers.Length
    {
      subscribers[..count]
    }

    ghost predicate Valid()
      reads this, subscribers
    {
      && subscribers.Length == MAX_SUBSCRIPTIONS && count <= MAX_SUBSCRIPTIONS
      && Distinct(Entries())
      && Table(Entries()) == After(requests, nameSize)
      && |eventQueue| <= EVENT_QUEUE_SIZE
      && accepted == handled + eventQueue
      && (eventQueue != [] ==> sendWork)
    }

    /** `subscriber_search`: the index of the entry stored under `name`, or -1. */
    method SubscriberSearch(name: seq<Byte>) returns (index: int)
      requires count <= subscribers.Length && Distinct(Entries())
      ensures -1 <= index < count
      ensures index != -1 <==> name in Table(Entries())
      ensures index != -1 ==> Entries()[index] == subscribers[index] && subscribers[index].name == name
      ensures index != -1 ==> Table(Entries())[name] == subscribers[index].handler
    {
      TableOf(Entries());
      hide Table, Distinct;
      index := 0;
      while index < count
        invariant 0 <= index <= count
        invariant forall i :: 0 <= i < index ==> Entries()[i].name != name
      {
        assert Entries()[index] == subscribers[index];
        if |subscribers[index].name| == |name| {
          if subscribers[index].name == name {
            return;
          }
        }
        index := index + 1;
      }
      return -1;
    }

    method Replace(index: nat, e: Entry)
      requires count <= subscribers.Length && index < count
      modifies subscribers
      ensures Entries() == old(Entries())[index := e]
    {
      subscribers[index] := e;
    }

    method Append(e: Entry)
      requires count < subscribers.Length
      modifies this`count, subscribers
      ensures count == old(count) + 1 && count <= subscribers.Length && Entries() == old(Entries()) + [e]
    {
      subscribers[count] := e;
      count := count + 1;
    }

    /** The end of `ble_subscribe`: overwrites the entry of that name, or adds one. */
    method Store(subscriber: Entry)
      requires count < subscribers.Length && Distinct(Entries())
      modifies this`count, subscribers
      ensures count <= subscribers.Length && Distinct(Entries())
      ensures Table(Entries()) == old(Table(Entries()))[subscriber.name := subscriber.handler]
    {
      ghost var was := Entries();
      hide Table, Distinct, Entries;
      var index := SubscriberSearch(subscriber.name);
      if index != -1 {
        assert was[index].name == subscriber.name;
        TableReplace(was, index, subscriber);
        Replace(index, subscriber);
      } else {
        TableExtend(was, subscriber);
        Append(subscriber);
      }
    }

    method BleSubscribe(name: seq<Byte>, handler: nat)
      requires Valid()
      modifies this`count, this`requests, subscribers
      ensures Valid() && requests == old(requests) + [Request(name, handler)]
    {
      TableOf(Entries());
      assert |Table(Entries())| == count;
      hide Table, Distinct, After, Key, Entries;
      AfterNext(requests, Request(name, handler), nameSize);
      requests := requests + [Request(name, handler)];
      var nameLength := (|name| + 1) % 0x100;
      if nameLength > nameSize {
        return;
      }
      if count >= MAX_SUBSCRIPTIONS {
        return;
      }
      Store(Entry(Key(name), handler));
    }

    /** `ble_evt_handler`, once the event is decoded: an event that finds the queue full is dropped. */
    method BleEvtHandler(event: Event)
      requires Valid()
      modifies this`eventQueue, this`sendWork, this`accepted
      ensures Valid() && sendWork
      ensures if |old(eventQueue)| < 20
              then eventQueue == old(eventQueue) + [event] && accepted == old(accepted) + [event]
              else eventQueue == old(eventQueue) && accepted == old(accepted)
    {
      if |eventQueue| < EVENT_QUEUE_SIZE {
        eventQueue := eventQueue + [event];
        accepted := accepted + [event];
      }
      sendWork := true;
    }

    /** Calls the raw handler, if there is one, and then the subscriber of the event's name, if there is one. */
    method Dispatch(event: Event)
      requires count <= subscribers.Length && Distinct(Entries())
      modifies this`log
      ensures log == old(log) + DeliveriesOf(event, rawHandler, Table(Entries()))
    {
      if rawHandler {
        log := log + [Raw(event)];
      }
      var index := SubscriberSearch(event.name);
      if index != -1 {
        log := log + [Handled(subscribers[index].handler, event)];
      }
    }

    /** One turn of the worker's loop: takes the oldest event and handles it. */
    method HandleNext()
      requires count <= subscribers.Length && Distinct(Entries()) && eventQueue != []
      modifies this`eventQueue, this`handled, this`log
      ensures old(eventQueue) == [old(eventQueue)[0]] + eventQueue
      ensures handled == old(handled) + [old(eventQueue)[0]]
      ensures log == old(log) + DeliveriesOf(old(eventQueue)[0], rawHandler, Table(Entries()))
    {
      hide Table, Distinct, DeliveriesOf, Entries;
      var event := eventQueue[0];
      eventQueue := eventQueue[1..];
      handled := handled + [event];
      Dispatch(event);
    }

    /** `bt_send_work_handler`: empties the queue in arrival order. */
    method BtSendWorkHandler()
      requires Valid()
      modifies this`eventQueue, this`sendWork, this`handled, this`log
      ensures Valid() && eventQueue == [] && handled == accepted
      ensures log == old(log) + Deliveries(old(eventQueue), rawHandler, After(requests, nameSize))
    {
      ghost var table := Table(Entries());
      ghost var goal := log + Deliveries(eventQueue, rawHandler, table);
      hide Table, Distinct, After, DeliveriesOf, Deliveries, Entries;
      while |eventQueue| != 0
        invariant |eventQueue| <= EVENT_QUEUE_SIZE && accepted == handled + eventQueue && table == Table(Entries())
        invariant goal == log + Deliveries(eventQueue, rawHandler, table)
        decreases |eventQueue|
      {
        NextDelivery(log, eventQueue, rawHandler, table);
        HandleNext();
      }
      NoDelivery(log, rawHandler, table);
      sendWork := false;
    }
  }
}
