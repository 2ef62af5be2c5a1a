/**
 * The H:4 byte stream as a whole: what packets a receiver with bounded buffers must hand on.
 * Packet formats are those of the Bluetooth Core Specification, Vol 4 Part A section 2 (type octets)
 * and Vol 4 Part E sections 5.4.1 (command) and 5.4.2 (ACL data).
 */
module H4Stream {
  import opened Bytes

  const H4_CMD: Byte := 0x01
  const H4_ACL: Byte := 0x02

  datatype Kind = Command | AclData

  /** A packet without its H:4 type octet: header followed by parameters. */
  datatype Packet = Packet(kind: Kind, data: seq<Byte>)

  /** Sizes of the buffers in the two pools; every buffer holds at least a header. */
  datatype Capacity = Capacity(command: nat, acl: nat) {
    predicate Valid() { 3 <= command && 4 <= acl }

    function Of(kind: Kind): nat {
      match kind
      case Command => command
      case AclData => acl
    }
  }

  predicate KnownType(t: Byte) { t == H4_CMD || t == H4_ACL }

  function KindOf(t: Byte): Kind
    requires KnownType(t)
  {
    if t == H4_CMD then Command else AclData
  }

  function TypeOctet(kind: Kind): Byte {
    match kind
    case Command => H4_CMD
    case AclData => H4_ACL
  }

  function HeaderSize(kind: Kind): nat {
    match kind
    case Command => 3
    case AclData => 4
  }

  /** The parameter length a header declares: one octet for commands, two (little-endian) for ACL data. */
  function DeclaredLength(kind: Kind, header: seq<Byte>): nat
    requires |header| == HeaderSize(kind)
  {
    match kind
    case Command => header[2]
    case AclData => (header[2] as int) + (header[3] as int) * 0x100
  }

  /**
   * The packets a receiver must queue for the stream `s`, read from a packet boundary.
   * `grants[i]` says whether the i-th buffer request succeeds. A refused request, or one for an unknown type,
   * costs the type octet and nothing else; a packet too big for its buffer is dropped as a whole.
   */
  ghost function Parse(cap: Capacity, s: seq<Byte>, grants: seq<bool>): seq<Packet>
    decreases |s|
  {
    if s == [] || grants == [] then []
    else if !grants[0] || !KnownType(s[0]) then Parse(cap, s[1..], grants[1..])
    else
      var kind := KindOf(s[0]);
      var body := s[1..];
      var h := HeaderSize(kind);
      if |body| < h then []
      else
        var size := h + DeclaredLength(kind, body[..h]);
        if |body| < size then []
        else
          (if size <= cap.Of(kind) then [Packet(kind, body[..size])] else [])
          + Parse(cap, body[size..], grants[1..])
  }

  /** Where a receiver stands between two reads. */
  datatype Progress =
    | Boundary
    | Filling(kind: Kind, got: seq<Byte>, need: nat)
    | Discarding(left: nat)

  /** The packets still to be queued when `s` follows and `grants` are the coming buffer requests. */
  ghost function Finish(cap: Capacity, p: Progress, s: seq<Byte>, grants: seq<bool>): seq<Packet> {
    match p
    case Boundary => Parse(cap, s, grants)
    case Filling(kind, got, need) =>
      if |s| < need then [] else [Packet(kind, got + s[..need])] + Parse(cap, s[need..], grants)
    case Discarding(left) =>
      if |s| < left then [] else Parse(cap, s[left..], grants)
  }

  /** Where a receiver stands once it has read a header. */
  function AfterHeader(cap: Capacity, kind: Kind, header: seq<Byte>): Progress
    requires |header| == HeaderSize(kind)
  {
    var need := DeclaredLength(kind, header);
    if HeaderSize(kind) + need <= cap.Of(kind) then Filling(kind, header, need) else Discarding(need)
  }

  /**
   * `queue` and `p` account for `consumed`: whatever follows, the whole stream parses to the queue
   * and then to what `p` still delivers.
   */
  ghost predicate Accounts(cap: Capacity, consumed: seq<Byte>, used: seq<bool>, queue: seq<Packet>, p: Progress) {
    forall rest: seq<Byte>, more: seq<bool> {:trigger Finish(cap, p, rest, more)} ::
      Parse(cap, consumed + rest, used + more) == queue + Finish(cap, p, rest, more)
  }

  /** The octets `taken` and buffer requests `asked` move `p` to `p'` and queue `out`. */
  ghost predicate Moves(cap: Capacity, p: Progress, taken: seq<Byte>, asked: seq<bool>, out: seq<Packet>,
                        p': Progress) {
    forall rest: seq<Byte>, more: seq<bool> {:trigger Finish(cap, p', rest, more)} ::
      Finish(cap, p, taken + rest, asked + more) == out + Finish(cap, p', rest, more)
  }

  lemma MovesAccountFor(cap: Capacity, consumed: seq<Byte>, used: seq<bool>, queue: seq<Packet>, p: Progress,
                        taken: seq<Byte>, asked: seq<bool>, out: seq<Packet>, p': Progress,
                        rest: seq<Byte>, more: seq<bool>)
    requires Parse(cap, consumed + (taken + rest), used + (asked + more))
          == queue + Finish(cap, p, taken + rest, asked + more)
    requires Finish(cap, p, taken + rest, asked + more) == out + Finish(cap, p', rest, more)
    ensures Parse(cap, (consumed + taken) + rest, (used + asked) + more) == (queue + out) + Finish(cap, p', rest, more)
  {
    Associative(consumed, taken, rest);
    Associative(used, asked, more);
    Associative(queue, out, Finish(cap, p', rest, more));
    hide Parse, Finish;
  }

  /** Accounting is kept by every move. */
  lemma MovesAccount(cap: Capacity, consumed: seq<Byte>, used: seq<bool>, queue: seq<Packet>, p: Progress,
                     taken: seq<Byte>, asked: seq<bool>, out: seq<Packet>, p': Progress)
    requires Accounts(cap, consumed, used, queue, p)
    requires Moves(cap, p, taken, asked, out, p')
    ensures Accounts(cap, consumed + taken, used + asked, queue + out, p')
  {
    forall rest: seq<Byte>, more: seq<bool>
      ensures Parse(cap, consumed + taken + rest, used + asked + more) == queue + out + Finish(cap, p', rest, more)
    {
      MovesAccountFor(cap, consumed, used, queue, p, taken, asked, out, p', rest, more);
    }
  }

  lemma FillFinishes(cap: Capacity, kind: Kind, got: seq<Byte>, need: nat, taken: seq<Byte>,
                     rest: seq<Byte>, grants: seq<bool>)
    requires |taken| <= need
    ensures Finish(cap, Filling(kind, got, need), taken + rest, grants)
         == Finish(cap, Filling(kind, got + taken, need - |taken|), rest, grants)
  {
    hide Parse;
    var k := need - |taken|;
    if |taken + rest| >= need {
      assert got + (taken + rest)[..need] == (got + taken) + rest[..k];
      assert (taken + rest)[need..] == rest[k..];
    }
  }

  lemma FillMoves(cap: Capacity, kind: Kind, got: seq<Byte>, need: nat, taken: seq<Byte>)
    requires |taken| < need
    ensures Moves(cap, Filling(kind, got, need), taken, [], [], Filling(kind, got + taken, need - |taken|))
  {
    var p, p' := Filling(kind, got, need), Filling(kind, got + taken, need - |taken|);
    hide Parse, Finish;
    forall rest: seq<Byte>, more: seq<bool>
      ensures Finish(cap, p, taken + rest, [] + more) == [] + Finish(cap, p', rest, more)
    {
      FillFinishes(cap, kind, got, need, taken, rest, more);
      assert [] + more == more;
    }
  }

  lemma CompletionMoves(cap: Capacity, kind: Kind, got: seq<Byte>, taken: seq<Byte>)
    ensures Moves(cap, Filling(kind, got, |taken|), taken, [], [Packet(kind, got + taken)], Boundary)
  {
    forall rest: seq<Byte>, more: seq<bool>
      ensures Finish(cap, Filling(kind, got, |taken|), taken + rest, [] + more)
           == [Packet(kind, got + taken)] + Finish(cap, Boundary, rest, more)
    {
      assert [] + more == more;
      assert (taken + rest)[..|taken|] == taken;
      assert (taken + rest)[|taken|..] == rest;
    }
  }

  lemma DiscardMoves(cap: Capacity, left: nat, taken: seq<Byte>)
    requires |taken| <= left
    ensures Moves(cap, Discarding(left), taken, [], [],
                  if |taken| == left then Boundary else Discarding(left - |taken|))
  {
    var p' := if |taken| == left then Boundary else Discarding(left - |taken|);
    forall rest: seq<Byte>, more: seq<bool>
      ensures Finish(cap, Discarding(left), taken + rest, [] + more) == [] + Finish(cap, p', rest, more)
    {
      assert [] + more == more;
      if |taken + rest| >= left {
        assert (taken + rest)[left..] == rest[left - |taken|..];
        assert rest[0..] == rest;
      }
    }
  }

  lemma HeaderMoves(cap: Capacity, t: Byte, header: seq<Byte>)
    requires KnownType(t) && |header| == HeaderSize(KindOf(t))
    ensures Moves(cap, Boundary, [t] + header, [true], [], AfterHeader(cap, KindOf(t), header))
  {
    var kind := KindOf(t);
    var h := HeaderSize(kind);
    var need := DeclaredLength(kind, header);
    var p' := AfterHeader(cap, kind, header);
    forall rest: seq<Byte>, more: seq<bool>
      ensures Finish(cap, Boundary, [t] + header + rest, [true] + more) == [] + Finish(cap, p', rest, more)
    {
      var s := [t] + header + rest;
      assert s[1..] == header + rest;
      assert s[1..][..h] == header;
      assert ([true] + more)[1..] == more;
      if |rest| >= need {
        assert s[1..][..h + need] == header + rest[..need];
        assert s[1..][h + need..] == rest[need..];
      }
    }
  }

  lemma RefusalMoves(cap: Capacity, t: Byte, granted: bool)
    requires !granted || !KnownType(t)
    ensures Moves(cap, Boundary, [t], [granted], [], Boundary)
  {}

  /** A stream that ends inside a header yields nothing for it. */
  lemma ShortHeader(cap: Capacity, consumed: seq<Byte>, used: seq<bool>, queue: seq<Packet>, t: Byte, part: seq<Byte>)
    requires Accounts(cap, consumed, used, queue, Boundary)
    requires KnownType(t) && |part| < HeaderSize(KindOf(t))
    ensures forall more: seq<bool> :: Parse(cap, consumed + [t] + part, used + [true] + more) == queue
  {
    forall more: seq<bool>
      ensures Parse(cap, consumed + [t] + part, used + [true] + more) == queue
    {
      var rest, grants := [t] + part, [true] + more;
      assert consumed + [t] + part == consumed + rest;
      assert used + [true] + more == used + grants;
      assert rest[1..] == part;
      assert Finish(cap, Boundary, rest, grants) == [];
    }
  }

  lemma FillAccounts(cap: Capacity, consumed: seq<Byte>, used: seq<bool>, queue: seq<Packet>,
                     kind: Kind, got: seq<Byte>, need: nat, taken: seq<Byte>)
    requires Accounts(cap, consumed, used, queue, Filling(kind, got, need)) && |taken| <= need
    ensures |taken| < need ==>
      Accounts(cap, consumed + taken, used, queue, Filling(kind, got + taken, need - |taken|))
    ensures |taken| == need ==>
      Accounts(cap, consumed + taken, used, queue + [Packet(kind, got + taken)], Boundary)
  {
    hide *;
    assert used + [] == used && queue + [] == queue;
    if |taken| == need {
      CompletionMoves(cap, kind, got, taken);
      MovesAccount(cap, consumed, used, queue, Filling(kind, got, need), taken, [],
                   [Packet(kind, got + taken)], Boundary);
    } else {
      FillMoves(cap, kind, got, need, taken);
      MovesAccount(cap, consumed, used, queue, Filling(kind, got, need), taken, [], [],
                   Filling(kind, got + taken, need - |taken|));
    }
  }

  lemma HeaderAccounts(cap: Capacity, consumed: seq<Byte>, used: seq<bool>, queue: seq<Packet>, t: Byte,
                       header: seq<Byte>)
    requires Accounts(cap, consumed, used, queue, Boundary)
    requires KnownType(t) && |header| == HeaderSize(KindOf(t))
    ensures Accounts(cap, consumed + [t] + header, used + [true], queue, AfterHeader(cap, KindOf(t), header))
  {
    hide *;
    assert consumed + [t] + header == consumed + ([t] + header);
    assert queue + [] == queue;
    HeaderMoves(cap, t, header);
    MovesAccount(cap, consumed, used, queue, Boundary, [t] + header, [true], [], AfterHeader(cap, KindOf(t), header));
  }

  lemma RefusalAccounts(cap: Capacity, consumed: seq<Byte>, used: seq<bool>, queue: seq<Packet>, t: Byte, granted: bool)
    requires Accounts(cap, consumed, used, queue, Boundary)
    requires !granted || !KnownType(t)
    ensures Accounts(cap, consumed + [t], used + [granted], queue, Boundary)
  {
    hide *;
    assert queue + [] == queue;
    RefusalMoves(cap, t, granted);
    MovesAccount(cap, consumed, used, queue, Boundary, [t], [granted], [], Boundary);
  }

  lemma DiscardAccounts(cap: Capacity, consumed: seq<Byte>, used: seq<bool>, queue: seq<Packet>,
                        left: nat, taken: seq<Byte>)
    requires Accounts(cap, consumed, used, queue, Discarding(left)) && |taken| <= left
    ensures Accounts(cap, consumed + taken, used, queue,
                     if |taken| == left then Boundary else Discarding(left - |taken|))
  {
    hide *;
    assert used + [] == used && queue + [] == queue;
    DiscardMoves(cap, left, taken);
    MovesAccount(cap, consumed, used, queue, Discarding(left), taken, [], [],
                 if |taken| == left then Boundary else Discarding(left - |taken|));
  }

  // ---------------------------------------------------------------- well-formed streams

  /** A packet whose header declares exactly the parameters that follow. */
  ghost predicate WellFormed(p: Packet) {
    var h := HeaderSize(p.kind);
    h <= |p.data| && |p.data| == h + DeclaredLength(p.kind, p.data[..h])
  }

  function Encode(p: Packet): seq<Byte> { [TypeOctet(p.kind)] + p.data }

  ghost function EncodeAll(ps: seq<Packet>): seq<Byte> {
    if ps == [] then [] else Encode(ps[0]) + EncodeAll(ps[1..])
  }

  /** The packets that fit their buffers, in order. */
  ghost function Fitting(cap: Capacity, ps: seq<Packet>): seq<Packet> {
    if ps == [] then []
    else (if |ps[0].data| <= cap.Of(ps[0].kind) then [ps[0]] else []) + Fitting(cap, ps[1..])
  }

  ghost predicate AllGranted(grants: seq<bool>) { forall i :: 0 <= i < |grants| ==> grants[i] }

  /** One packet, fitting or oversized, is parsed off without touching the octets after it. */
  lemma ParsePacket(cap: Capacity, p: Packet, rest: seq<Byte>, grants: seq<bool>)
    requires WellFormed(p)
    requires grants != [] && grants[0]
    ensures Parse(cap, Encode(p) + rest, grants)
         == (if |p.data| <= cap.Of(p.kind) then [p] else []) + Parse(cap, rest, grants[1..])
  {
    var s := Encode(p) + rest;
    var h, body := HeaderSize(p.kind), s[1..];
    assert s[0] == TypeOctet(p.kind) && KindOf(s[0]) == p.kind;
    assert body == p.data + rest;
    hide DeclaredLength, HeaderSize, Fitting, TypeOctet, KindOf;
    assert body[..h] == p.data[..h];
    assert body[..|p.data|] == p.data;
    assert body[|p.data|..] == rest;
  }

  /** Octet by octet: `01`, opcode, length, parameters. */
  lemma ParseCommandOctets(cap: Capacity, a: Byte, b: Byte, params: seq<Byte>, rest: seq<Byte>, more: seq<bool>)
    requires |params| < 0x100
    ensures
      var packet := [a, b, |params|] + params;
      Parse(cap, [0x01] + packet + rest, [true] + more)
      == (if 3 + |params| <= cap.command then [Packet(Command, packet)] else []) + Parse(cap, rest, more)
  {
    var packet := [a, b, |params|] + params;
    assert packet[..3] == [a, b, |params|] && packet[..3][2] == |params|;
    ParsePacket(cap, Packet(Command, packet), rest, [true] + more);
  }

  /** Octet by octet: `02`, handle, the length with its low octet first, data. */
  lemma ParseAclOctets(cap: Capacity, a: Byte, b: Byte, data: seq<Byte>, rest: seq<Byte>, more: seq<bool>)
    requires |data| < 0x1_0000
    ensures
      var packet := [a, b, |data| % 0x100, |data| / 0x100] + data;
      Parse(cap, [0x02] + packet + rest, [true] + more)
      == (if 4 + |data| <= cap.acl then [Packet(AclData, packet)] else []) + Parse(cap, rest, more)
  {
    var low, high := |data| % 0x100, |data| / 0x100;
    var packet := [a, b, low, high] + data;
    assert packet[..4] == [a, b, low, high] && packet[..4][2] == low && packet[..4][3] == high;
    ParsePacket(cap, Packet(AclData, packet), rest, [true] + more);
  }

  /** Any other type octet is skipped, and so is one whose buffer is refused. */
  lemma ParseSkips(cap: Capacity, t: Byte, granted: bool, rest: seq<Byte>, more: seq<bool>)
    requires !granted || (t != 0x01 && t != 0x02)
    ensures Parse(cap, [t] + rest, [granted] + more) == Parse(cap, rest, more)
  {
    assert ([t] + rest)[1..] == rest && ([granted] + more)[1..] == more;
  }

  /** A stream of well-formed packets parses to exactly those that fit their buffers, in order. */
  lemma {:induction false} ParseEncodeAll(cap: Capacity, ps: seq<Packet>, grants: seq<bool>)
    requires forall i :: 0 <= i < |ps| ==> WellFormed(ps[i])
    requires |ps| <= |grants| && AllGranted(grants)
    ensures Parse(cap, EncodeAll(ps), grants) == Fitting(cap, ps)
  {
    if ps == [] {
    } else {
      ParsePacket(cap, ps[0], EncodeAll(ps[1..]), grants);
      ParseEncodeAll(cap, ps[1..], grants[1..]);
    }
  }

  // ---------------------------------------------------------------- refused buffers

  /** Whatever well-formed packets are sent, buffer requests with these outcomes yield exactly those that fit. */
  ghost predicate KeepsBoundaries(cap: Capacity, grants: seq<bool>) {
    forall ps: seq<Packet> :: |ps| <= |grants| && (forall i :: 0 <= i < |ps| ==> WellFormed(ps[i]))
      ==> Parse(cap, EncodeAll(ps), grants) == Fitting(cap, ps)
  }

  const RESET := Packet(Command, [0, 0, 0])

  function Resets(n: nat): seq<Packet> { seq(n, i => RESET) }

  /** The octets of a packet whose request is refused are taken for type octets: zeros are skipped one by one. */
  lemma {:induction false} ZerosParseToNothing(cap: Capacity, s: seq<Byte>, grants: seq<bool>)
    requires forall i :: 0 <= i < |s| ==> s[i] == 0
    ensures Parse(cap, s, grants) == []
    decreases |s|
  {
    if s == [] || grants == [] {
    } else {
      ZerosParseToNothing(cap, s[1..], grants[1..]);
    }
  }

  /** When request `k` is the first to be refused, of `k + 1` commands the last is missing. */
  lemma {:induction false} RefusedCommandIsMissing(cap: Capacity, grants: seq<bool>, k: nat)
    requires cap.Valid() && k < |grants| && !grants[k] && AllGranted(grants[..k])
    ensures |Parse(cap, EncodeAll(Resets(k + 1)), grants)| == k
    ensures |Fitting(cap, Resets(k + 1))| == k + 1
    decreases k
  {
    var ps := Resets(k + 1);
    assert ps[0] == RESET && ps[1..] == Resets(k);
    if k == 0 {
      assert EncodeAll(ps) == [H4_CMD, 0, 0, 0] + EncodeAll([]);
      assert EncodeAll(ps)[1..] == [0, 0, 0];
      ZerosParseToNothing(cap, [0, 0, 0], grants[1..]);
    } else {
      assert grants[..k][0] && grants[1..][..k - 1] == grants[..k][1..];
      ParsePacket(cap, RESET, EncodeAll(Resets(k)), grants);
      RefusedCommandIsMissing(cap, grants[1..], k - 1);
    }
  }

  lemma FirstRefusal(grants: seq<bool>) returns (k: nat)
    requires !AllGranted(grants)
    ensures k < |grants| && !grants[k] && AllGranted(grants[..k])
  {
    k := 0;
    while grants[k]
      invariant k < |grants| && forall i :: 0 <= i < k ==> grants[i]
      decreases |grants| - k
    {
      k := k + 1;
    }
  }

  /** Packet boundaries survive oversized packets, but not a single refused buffer. */
  lemma KeepsBoundariesIff(cap: Capacity, grants: seq<bool>)
    requires cap.Valid()
    ensures KeepsBoundaries(cap, grants) <==> AllGranted(grants)
  {
    if AllGranted(grants) {
      forall ps: seq<Packet> | |ps| <= |grants| && (forall i :: 0 <= i < |ps| ==> WellFormed(ps[i]))
        ensures Parse(cap, EncodeAll(ps), grants) == Fitting(cap, ps)
      {
        ParseEncodeAll(cap, ps, grants);
      }
    } else {
      var k := FirstRefusal(grants);
      RefusedCommandIsMissing(cap, grants, k);
      var ps := Resets(k + 1);
      assert forall i :: 0 <= i < |ps| ==> WellFormed(ps[i]);
    }
  }

  /** What comes out instead can be worse than nothing: octets from inside a packet, as a packet that nobody sent. */
  lemma RefusalLosesBoundary(cap: Capacity)
    requires cap.Valid()
    ensures
      var sent := Packet(Command, [0x01, 0x00, 0x01, 0x00]);
      var phantom := Packet(Command, [0x00, 0x01, 0x00]);
      WellFormed(sent) && Parse(cap, Encode(sent), [false, true]) == [phantom]
  {
    var sent := Packet(Command, [0x01, 0x00, 0x01, 0x00]);
    var phantom := Packet(Command, [0x00, 0x01, 0x00]);
    var s := Encode(sent);
    assert s == [0x01, 0x01, 0x00, 0x01, 0x00];
    assert s[1..] == Encode(phantom) + [];
    assert Parse(cap, s, [false, true]) == Parse(cap, s[1..], [true]);
    ParsePacket(cap, phantom, [], [true]);
  }
}
