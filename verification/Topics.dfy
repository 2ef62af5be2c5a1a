/** MQTT topics: how full topics are formed, and which callback an incoming publish reaches. */
module Topics {
  import opened Options

  const IMEI_LEN := 15
  const EVENT_NAME_MAX_SIZE := 16
  const CALLBACK_MAX_COUNT := 10
  const APPLICATION_SUB_FORMAT := "%.*s/app/sub/%.*s"
  const OTA_SUB_FORMAT := "%.*s/ota/sub"

  // The sizes of the buffers the topics are printed into, terminator included.
  const FULL_TOPIC_SIZE: nat := |APPLICATION_SUB_FORMAT| + 1 + IMEI_LEN + EVENT_NAME_MAX_SIZE
  const OTA_TOPIC_SIZE: nat := |OTA_SUB_FORMAT| + 1 + IMEI_LEN

  /** What `snprintf` leaves in a buffer of `size` octets. */
  function Snprintf(size: nat, text: string): string
    requires 0 < size
  {
    if |text| < size then text else text[..size - 1]
  }

  function OtaTopic(imei: string): string { Snprintf(OTA_TOPIC_SIZE, imei + "/ota/sub") }

  function FullTopic(imei: string, name: string): string {
    Snprintf(FULL_TOPIC_SIZE, imei + "/app/sub/" + name)
  }

  /** `strncmp(a, b, n) == 0` for strings without embedded terminators. */
  predicate SameUpTo(a: string, b: string, n: nat) {
    (if n <= |a| then a[..n] else a) == (if n <= |b| then b[..n] else b)
  }

  /** An incoming topic is not terminated: `after` is the memory behind it. */
  predicate RoutesToOta(imei: string, topic: string, after: string) {
    SameUpTo(OtaTopic(imei), topic + after, |OtaTopic(imei)|)
  }

  /** No topic is truncated, as long as the name is one that can be registered. */
  lemma TopicsAreWhole(imei: string, name: string)
    requires |imei| == IMEI_LEN && |name| <= EVENT_NAME_MAX_SIZE
    ensures FullTopic(imei, name) == imei + "/app/sub/" + name
    ensures OtaTopic(imei) == imei + "/ota/sub"
  {
    assert |APPLICATION_SUB_FORMAT| == 17 && |OTA_SUB_FORMAT| == 12;
  }

  /** One full topic is a prefix of another exactly when the names are; distinct names give distinct topics. */
  lemma FullTopicPrefixIff(imei: string, a: string, b: string)
    requires |imei| == IMEI_LEN && |a| <= EVENT_NAME_MAX_SIZE && |b| <= EVENT_NAME_MAX_SIZE
    ensures FullTopic(imei, a) <= FullTopic(imei, b) <==> a <= b
    ensures FullTopic(imei, a) == FullTopic(imei, b) <==> a == b
  {
    TopicsAreWhole(imei, a);
    TopicsAreWhole(imei, b);
    var head := imei + "/app/sub/";
    assert (head + a)[|head|..] == a && (head + b)[|head|..] == b;
    if head + a <= head + b {
      assert head + a == (head + b)[..|head + a|];
      assert (head + b)[..|head + a|] == head + b[..|a|];
      assert (head + b[..|a|])[|head|..] == b[..|a|];
    }
    if a <= b {
      assert head + b == head + a + b[|a|..];
    }
  }

  /** An application topic never reaches the OTA handler, whatever lies behind it in memory. */
  lemma ApplicationIsNotOta(imei: string, name: string, after: string)
    requires |imei| == IMEI_LEN && |name| <= EVENT_NAME_MAX_SIZE
    ensures !RoutesToOta(imei, FullTopic(imei, name), after)
    ensures RoutesToOta(imei, OtaTopic(imei), after)
  {
    TopicsAreWhole(imei, name);
    var ota, app := OtaTopic(imei), FullTopic(imei, name) + after;
    assert ota[..|ota|][IMEI_LEN + 1] == 'o';
    assert app[..|ota|][IMEI_LEN + 1] == 'a';
    assert (ota + after)[..|ota|] == ota;
  }

  /** A registered callback. */
  datatype Entry = Entry(fullTopic: string, name: string, callback: nat)

  /** The first entry from `i` on whose full topic starts with `topic`, or the number of entries. */
  function FirstMatch(entries: seq<Entry>, topic: string, i: nat): (k: nat)
    requires i <= |entries|
    ensures i <= k <= |entries|
    ensures forall j :: i <= j < k ==> !(topic <= entries[j].fullTopic)
    ensures k < |entries| ==> topic <= entries[k].fullTopic
    decreases |entries| - i
  {
    if i == |entries| || topic <= entries[i].fullTopic then i else FirstMatch(entries, topic, i + 1)
  }

  datatype Error = NoError | EINVAL | ENOMEM

  class CallbackTable {
    const imei: string
    const callbacks: array<Option<Entry>>

    ghost var entries: seq<Entry>

    ghost predicate Valid()
      reads this, callbacks
    {
      && |imei| == IMEI_LEN
      && callbacks.Length == CALLBACK_MAX_COUNT && |entries| <= CALLBACK_MAX_COUNT
      && (forall i :: 0 <= i < |entries| ==> callbacks[i] == Some(entries[i]))
      && (forall i :: |entries| <= i < callbacks.Length ==> callbacks[i] == None)
      && (forall i :: 0 <= i < |entries| ==>
            |entries[i].name| <= EVENT_NAME_MAX_SIZE && entries[i].fullTopic == FullTopic(imei, entries[i].name))
    }

    constructor (imei: string)
      requires |imei| == IMEI_LEN
      ensures Valid() && entries == [] && this.imei == imei
    {
      this.imei := imei;
      callbacks := new Option<Entry>[CALLBACK_MAX_COUNT](i => None);
      entries := [];
    }

    method Subscribe(name: string, callback: nat) returns (err: Error)
      requires Valid()
      modifies this`entries, callbacks
      ensures Valid()
      ensures err == if |name| > EVENT_NAME_MAX_SIZE then EINVAL
                     else if |old(entries)| == CALLBACK_MAX_COUNT then ENOMEM else NoError
      ensures entries == old(entries) + if err == NoError then [Entry(FullTopic(imei, name), name, callback)] else []
    {
      if |name| > EVENT_NAME_MAX_SIZE {
        return EINVAL;
      }
      var i := 0;
      while i < callbacks.Length
        invariant 0 <= i <= |entries| && i <= callbacks.Length
      {
        if callbacks[i] == None {
          callbacks[i] := Some(Entry(FullTopic(imei, name), name, callback));
          entries := entries + [Entry(FullTopic(imei, name), name, callback)];
          return NoError;
        }
        i := i + 1;
      }
      return ENOMEM;
    }

    /** The loop of `publish_evt_handler` over the callbacks: the index of the one that is called, if any. */
    method Dispatch(topic: string) returns (called: Option<nat>)
      requires Valid()
      ensures called == if FirstMatch(entries, topic, 0) < |entries| then Some(FirstMatch(entries, topic, 0)) else None
    {
      var i := 0;
      while i < callbacks.Length
        invariant 0 <= i <= callbacks.Length
        invariant forall j :: 0 <= j < i && j < |entries| ==> !(topic <= entries[j].fullTopic)
      {
        if callbacks[i] == None {
          i := i + 1;
          continue;
        }
        if SameUpTo(callbacks[i].value.fullTopic, topic, |topic|) {
          assert topic <= entries[i].fullTopic;
          return Some(i);
        }
        i := i + 1;
      }
      return None;
    }
  }

  /** A publish for `name` reaches the first callback registered under a name that starts with `name`. */
  lemma DispatchByName(t: CallbackTable, name: string)
    requires t.Valid() && |name| <= EVENT_NAME_MAX_SIZE
    ensures
      var k := FirstMatch(t.entries, FullTopic(t.imei, name), 0);
      && (forall j :: 0 <= j < k ==> !(name <= t.entries[j].name))
      && (k < |t.entries| ==> name <= t.entries[k].name)
  {
    forall j | 0 <= j < |t.entries|
      ensures FullTopic(t.imei, name) <= t.entries[j].fullTopic <==> name <= t.entries[j].name
    {
      FullTopicPrefixIff(t.imei, name, t.entries[j].name);
    }
  }

  /**
   * It is the first registration of that very name exactly when no longer name starting with it was registered
   * earlier; so among names none of which starts another, every publish reaches its own callback.
   */
  lemma DispatchReachesFirstRegistrationIff(t: CallbackTable, r: nat)
    requires t.Valid() && r < |t.entries|
    requires forall j :: 0 <= j < r ==> t.entries[j].name != t.entries[r].name
    ensures FirstMatch(t.entries, FullTopic(t.imei, t.entries[r].name), 0) == r <==>
      forall j :: 0 <= j < r ==> !(t.entries[r].name <= t.entries[j].name)
  {
    DispatchByName(t, t.entries[r].name);
    var k := FirstMatch(t.entries, FullTopic(t.imei, t.entries[r].name), 0);
    assert t.entries[r].name <= t.entries[r].name;
  }
}
