/**
 * The UART side of the HCI controller sample: the interrupt routine that rebuilds H:4 packets
 * from whatever pieces the receive FIFO hands out.
 */
module HciUart {
  import opened Bytes
  import opened H4Stream

  const H4_DISCARD_LEN := 33

  /** The array contents `a` with `data` written at `at`. */
  ghost function Splice(a: seq<Byte>, at: nat, data: seq<Byte>): seq<Byte>
    requires at + |data| <= |a|
  {
    a[..at] + data + a[at + |data|..]
  }

  lemma SpliceTwice(a: seq<Byte>, at: nat, first: seq<Byte>, second: seq<Byte>)
    requires at + |first| + |second| <= |a|
    ensures |Splice(a, at, first)| == |a|
    ensures Splice(Splice(a, at, first), at + |first|, second) == Splice(a, at, first + second)
  {}

  lemma SpliceNothing(a: seq<Byte>, at: nat)
    requires at <= |a|
    ensures Splice(a, at, []) == a
  {}

  lemma SplicePrefix(a: seq<Byte>, at: nat, data: seq<Byte>)
    requires at + |data| <= |a|
    ensures |Splice(a, at, data)| == |a|
    ensures Splice(a, at, data)[..at + |data|] == a[..at] + data
  {}

  /**
   * The receive FIFO of the UART driver. `future` holds every octet that will ever arrive; a read returns as many of
   * them as have arrived by then, which can be none for as long as `stalls` lasts.
   */
  class UartFifo {
    var future: seq<Byte>
    var stalls: nat
    ghost var consumed: seq<Byte>

    constructor (stream: seq<Byte>, stalls: nat)
      ensures future == stream && this.stalls == stalls && consumed == []
    {
      future, this.stalls, consumed := stream, stalls, [];
    }

    /** `uart_fifo_read`: stores up to `len` octets at `buf[at..]`; `data` names them. */
    method Read(buf: array<Byte>, at: nat, len: nat) returns (rx: nat, ghost data: seq<Byte>)
      requires at + len <= buf.Length
      modifies this, buf
      ensures rx == |data| <= len
      ensures buf[..] == Splice(old(buf[..]), at, data)
      ensures old(future) == data + future && consumed == old(consumed) + data
      ensures stalls == old(stalls) || (rx == 0 && stalls == old(stalls) - 1)
      ensures rx == 0 && 0 < len && future != [] ==> stalls < old(stalls)
    {
      rx, data := 0, [];
      if len == 0 || future == [] {
        return;
      }
      var late: bool := *;
      if 0 < stalls && late {
        stalls := stalls - 1;
        return;
      }
      rx :| 1 <= rx <= len && rx <= |future|;
      data := future[..rx];
      forall i | 0 <= i < rx {
        buf[at + i] := future[i];
      }
      consumed, future := consumed + data, future[rx..];
    }
  }

  /**
   * Reads up to `len` octets, giving up at the first empty FIFO unless fewer than `min` have come in; in that case it
   * spins. `starved` stands for spinning forever, because nothing more will arrive.
   */
  method H4Read(uart: UartFifo, buf: array<Byte>, at: nat, len: nat, min: nat)
      returns (total: nat, starved: bool, ghost data: seq<Byte>)
    requires at + len <= buf.Length
    modifies uart, buf
    ensures total == |data| <= len
    ensures buf[..] == Splice(old(buf[..]), at, data)
    ensures old(uart.future) == data + uart.future && uart.consumed == old(uart.consumed) + data
    ensures starved <==> total < min && total < len
    ensures starved ==> uart.future == []
    ensures uart.stalls <= old(uart.stalls)
    ensures total < len && uart.future != [] ==> uart.stalls < old(uart.stalls)
  {
    total, starved, data := 0, false, [];
    SpliceNothing(buf[..], at);
    hide Splice;
    while total < len
      invariant total == |data| <= len && !starved
      invariant buf[..] == Splice(old(buf[..]), at, data)
      invariant old(uart.future) == data + uart.future && uart.consumed == old(uart.consumed) + data
      invariant uart.stalls <= old(uart.stalls)
      decreases len - total, uart.stalls
    {
      var rx, more := uart.Read(buf, at + total, len - total);
      SpliceTwice(old(buf[..]), at, data, more);
      Associative(data, more, uart.future);
      Associative(old(uart.consumed), data, more);
      data := data + more;
      if rx == 0 {
        if total < min {
          if uart.future == [] {
            starved := true;
            return;
          }
          continue;
        }
        break;
      }
      total := total + rx;
    }
  }

  method H4Discard(uart: UartFifo, len: nat) returns (read: nat, ghost data: seq<Byte>)
    modifies uart
    ensures read == |data| <= len && read <= H4_DISCARD_LEN
    ensures old(uart.future) == data + uart.future && uart.consumed == old(uart.consumed) + data
    ensures uart.stalls <= old(uart.stalls)
    ensures read == 0 && 0 < len && uart.future != [] ==> uart.stalls < old(uart.stalls)
  {
    var buf := new Byte[H4_DISCARD_LEN];
    read, data := uart.Read(buf, 0, if len < H4_DISCARD_LEN then len else H4_DISCARD_LEN);
  }

  datatype BufType = Cmd | AclOut | Unknown

  /** A network buffer: `data[..len]` is filled, the rest is tailroom. */
  class NetBuf {
    ghost const id: nat
    const bufType: BufType
    const data: array<Byte>
    var len: nat

    constructor (ghost id: nat, bufType: BufType, size: nat)
      ensures this.id == id && this.bufType == bufType && data.Length == size && len == 0 && fresh(data)
    {
      this.id, this.bufType, data, len := id, bufType, new Byte[size], 0;
    }

    function Tailroom(): int
      reads this
    {
      data.Length - len
    }

    method AddMem(mem: array<Byte>)
      requires len + mem.Length <= data.Length && mem != data
      modifies this, data
      ensures len == old(len) + mem.Length && data[..len] == old(data[..len]) + mem[..]
    {
      forall i | 0 <= i < mem.Length {
        data[len + i] := mem[i];
      }
      len := len + mem.Length;
    }
  }

  /** A `kind` header is in `buf` and declares `remaining` octets, or the FIFO ran dry inside it. */
  ghost predicate HeaderRead(kind: Kind, buf: NetBuf, remaining: nat, starved: bool, header: seq<Byte>)
    reads buf, buf.data
  {
    var h := HeaderSize(kind);
    if starved then |header| < h
    else
      && buf.len == |header| == h <= buf.data.Length && buf.data[..h] == header
      && remaining == DeclaredLength(kind, header)
  }

  /** Reads a command header into `buf`; the parameters it declares remain. */
  method H4CmdRecv(uart: UartFifo, buf: NetBuf) returns (remaining: nat, starved: bool, ghost header: seq<Byte>)
    requires buf.len == 0 && 3 <= buf.data.Length
    modifies uart, buf, buf.data
    ensures HeaderRead(Command, buf, remaining, starved, header)
    ensures old(uart.future) == header + uart.future && uart.consumed == old(uart.consumed) + header
    ensures uart.stalls <= old(uart.stalls) && (starved ==> uart.future == [])
  {
    var hdr := new Byte[3];
    var read;
    read, starved, header := H4Read(uart, hdr, 0, 3, 3);
    remaining := 0;
    if starved {
      return;
    }
    remaining := hdr[2];
    buf.AddMem(hdr);
  }

  /** Reads an ACL header into `buf`; the data it declares remain. */
  method H4AclRecv(uart: UartFifo, buf: NetBuf) returns (remaining: nat, starved: bool, ghost header: seq<Byte>)
    requires buf.len == 0 && 4 <= buf.data.Length
    modifies uart, buf, buf.data
    ensures HeaderRead(AclData, buf, remaining, starved, header)
    ensures old(uart.future) == header + uart.future && uart.consumed == old(uart.consumed) + header
    ensures uart.stalls <= old(uart.stalls) && (starved ==> uart.future == [])
  {
    var hdr := new Byte[4];
    var read;
    read, starved, header := H4Read(uart, hdr, 0, 4, 4);
    remaining := 0;
    if starved {
      return;
    }
    buf.AddMem(hdr);
    remaining := (hdr[2] as int) + (hdr[3] as int) * 0x100;
  }

  /** What the interrupt controller reports at the head of the service loop. */
  datatype Irq = RxReady | TxReady | Spurious

  predicate AllReady(irqs: seq<Irq>) { forall k :: 0 <= k < |irqs| ==> irqs[k] == RxReady }

  datatype Fate = InProgress | Queued | Released | Abandoned

  datatype Turn = Retry | Leave | Handle

  class Receiver {
    const cap: Capacity
    const uart: UartFifo

    // The interrupt routine's static variables and the queue it feeds.
    var buf: NetBuf?
    var remaining: nat
    var txQueue: seq<Packet>

    // Set when a header read spins forever.
    var stuck: bool

    // History: outcomes of the buffer requests, and the fate of every buffer ever allocated, by id.
    ghost var used: seq<bool>
    ghost var ledger: seq<Fate>
    ghost var txIds: seq<nat>
    ghost var strangers: set<nat>

    constructor (cap: Capacity, uart: UartFifo)
      requires cap.Valid() && uart.consumed == []
      ensures this.cap == cap && this.uart == uart && Valid() && !stuck && remaining == 0 && buf == null
    {
      this.cap, this.uart := cap, uart;
      buf, remaining, txQueue, stuck := null, 0, [], false;
      used, ledger, txIds, strangers := [], [], [], {};
      new;
      forall rest: seq<Byte>, more: seq<bool>
        ensures Parse(cap, [] + rest, [] + more) == [] + Finish(cap, Boundary, rest, more)
      {
        assert [] + rest == rest && [] + more == more;
      }
    }

    ghost function Footprint(): set<object>
      reads this
    {
      {this, uart} + if buf == null then {} else {buf, buf.data}
    }

    ghost function BufKind(): Kind
      reads this, buf
      requires buf != null
    {
      if buf.bufType == Cmd then Command else AclData
    }

    /** The packet in progress, as the stream specification sees it. */
    ghost function Held(): Progress
      reads this, buf, if buf == null then {} else {buf.data}
      requires buf != null ==> buf.len <= buf.data.Length
    {
      if buf == null then Discarding(remaining)
      else Filling(BufKind(), buf.data[..buf.len], remaining)
    }

    /** The packet in progress fits its buffer and lacks exactly what its header declares. */
    ghost predicate InPacket()
      reads this, buf, if buf == null then {} else {buf.data}, uart
    {
      && (buf == null ==> 0 < remaining)
      && (buf != null ==>
            var h := HeaderSize(BufKind());
            && buf.bufType != Unknown
            && h <= buf.len && buf.len + remaining <= buf.data.Length
            && buf.len + remaining == h + DeclaredLength(BufKind(), buf.data[..h]))
      && Accounts(cap, uart.consumed, used, txQueue, Held())
    }

    ghost predicate AtBoundary()
      reads this, uart, buf
    {
      && remaining == 0
      && (buf != null ==> buf.bufType == Unknown)
      && Accounts(cap, uart.consumed, used, txQueue, Boundary)
    }

    /** Spinning inside a header that will never be completed. */
    ghost predicate Starved()
      reads this, uart
    {
      && buf != null && uart.future == []
      && forall more: seq<bool> :: Parse(cap, uart.consumed, used + more) == txQueue
    }

    /** Every buffer ever allocated has exactly one fate. */
    ghost predicate Accounted()
      reads this`buf, this`ledger, this`txIds, this`txQueue, this`strangers
    {
      && (buf != null ==> buf.id < |ledger| && (buf.bufType == Unknown <==> buf.id in strangers))
      && (forall i :: i in strangers ==> i < |ledger|)
      && (forall i :: 0 <= i < |ledger| ==> (ledger[i] == InProgress <==> buf != null && buf.id == i))
      && |txIds| == |txQueue|
      && (forall j :: 0 <= j < |txIds| ==> txIds[j] < |ledger| && ledger[txIds[j]] == Queued)
      && (forall j, k :: 0 <= j < k < |txIds| ==> txIds[j] != txIds[k])
      && (forall i :: 0 <= i < |ledger| && ledger[i] == Queued ==> i in txIds)
      && (forall i :: 0 <= i < |ledger| && ledger[i] == Abandoned ==> i in strangers)
    }

    /** What holds at every loop head and between interrupts. */
    ghost predicate Valid()
      reads this, buf, if buf == null then {} else {buf.data}, uart
    {
      && cap.Valid()
      && Accounted()
      && if stuck then Starved() else if remaining == 0 then AtBoundary() else InPacket()
    }

    /** `bt_buf_get_tx`: whether a buffer is free, and what is handed out for an unknown type, is up to the stack. */
    method GetTx(t: Byte)
      requires Accounted()
      requires buf != null ==> buf.bufType == Unknown
      modifies this`buf, this`used, this`ledger, this`strangers
      ensures Accounted()
      ensures used == old(used) + [buf != null]
      ensures |ledger| == |old(ledger)| + (if buf != null then 1 else 0)
      ensures old(strangers) <= strangers
      ensures strangers != old(strangers) <==> buf != null && !KnownType(t)
      ensures buf != null ==>
        && fresh(buf) && fresh(buf.data) && buf.len == 0
        && (KnownType(t) <==> buf.bufType != Unknown)
        && (KnownType(t) ==>
              && buf.bufType == (if KindOf(t) == Command then Cmd else AclOut)
              && buf.data.Length == cap.Of(KindOf(t)))
    {
      if buf != null {
        ledger := ledger[buf.id := Abandoned];
      }
      buf := null;
      var granted: bool := *;
      used := used + [granted];
      if granted {
        buf := new NetBuf(|ledger|,
                          if !KnownType(t) then Unknown else if t == H4_CMD then Cmd else AclOut,
                          if KnownType(t) then cap.Of(KindOf(t)) else 0);
        ledger := ledger + [InProgress];
        strangers := if KnownType(t) then strangers else strangers + {buf.id};
      }
    }

    /** `net_buf_unref` on the buffer in progress. */
    method Unref()
      requires Accounted() && buf != null && buf.bufType != Unknown
      modifies this`buf, this`ledger
      ensures Accounted() && buf == null
      ensures ledger == old(ledger)[old(buf).id := Released]
    {
      ledger := ledger[buf.id := Released];
      buf := null;
    }

    /** `net_buf_put` of the buffer in progress, which holds `packet`. */
    method Put(packet: Packet)
      requires Accounted() && buf != null && buf.bufType != Unknown
      modifies this`buf, this`ledger, this`txQueue, this`txIds
      ensures Accounted() && buf == null
      ensures ledger == old(ledger)[old(buf).id := Queued]
      ensures txQueue == old(txQueue) + [packet] && txIds == old(txIds) + [old(buf).id]
    {
      txQueue := txQueue + [packet];
      ledger, txIds := ledger[buf.id := Queued], txIds + [buf.id];
      buf := null;
    }

    /** Reads a type octet and a header; `Handle` means a packet has been started, with or without a buffer. */
    method BeginPacket() returns (turn: Turn)
      requires Valid() && !stuck && remaining == 0
      modifies Footprint()
      ensures fresh(Footprint() - old(Footprint()))
      ensures old(txQueue) == txQueue && old(used) <= used
      ensures turn.Handle? ==> cap.Valid() && Accounted() && InPacket() && !stuck
      ensures !turn.Handle? ==> Valid()
      ensures turn.Retry? ==> !stuck && used == old(used)
      ensures turn.Leave? ==> stuck || used == old(used) + [false] || strangers != old(strangers)
      ensures old(strangers) <= strangers
      ensures uart.stalls <= old(uart.stalls) && |uart.future| <= |old(uart.future)|
      ensures old(uart.future) != [] ==> uart.stalls + |uart.future| < old(uart.stalls + |uart.future|)
    {
      hide Accounts, Parse, Finish, Accounted;
      var typ := new Byte[1];
      ghost var consumed := uart.consumed;
      var read, starved, data := H4Read(uart, typ, 0, 1, 0);
      if read != 1 {
        assert uart.consumed == consumed;
        return Retry;
      }
      assert data == [typ[0]];
      turn := OpenPacket(typ[0], consumed);
    }

    /** Reads the header that the kind of the buffer calls for. */
    method RecvHeader() returns (starved: bool, ghost header: seq<Byte>)
      requires buf != null && buf.bufType != Unknown && buf.len == 0 && HeaderSize(BufKind()) <= buf.data.Length
      modifies this`remaining, uart, buf, buf.data
      ensures HeaderRead(BufKind(), buf, remaining, starved, header)
      ensures old(uart.future) == header + uart.future && uart.consumed == old(uart.consumed) + header
      ensures uart.stalls <= old(uart.stalls) && (starved ==> uart.future == [])
    {
      hide HeaderRead;
      match buf.bufType {
        case Cmd => remaining, starved, header := H4CmdRecv(uart, buf);
        case AclOut => remaining, starved, header := H4AclRecv(uart, buf);
      }
    }

    /** The rest of `BeginPacket`, for a type octet `t` read after the octets `before`. */
    method OpenPacket(t: Byte, ghost before: seq<Byte>) returns (turn: Turn)
      requires cap.Valid() && Accounted() && !stuck && remaining == 0
      requires buf != null ==> buf.bufType == Unknown
      requires uart.consumed == before + [t] && Accounts(cap, before, used, txQueue, Boundary)
      modifies Footprint()
      ensures fresh(Footprint() - old(Footprint()))
      ensures txQueue == old(txQueue) && old(used) <= used && old(strangers) <= strangers
      ensures turn.Handle? ==> cap.Valid() && Accounted() && InPacket() && !stuck
      ensures turn.Leave? ==> Valid() && (stuck || used == old(used) + [false] || strangers != old(strangers))
      ensures !turn.Retry?
      ensures uart.stalls <= old(uart.stalls) && |uart.future| <= |old(uart.future)|
    {
      hide Accounts, Parse, Finish, Accounted;
      GetTx(t);
      if buf == null {
        RefusalAccounts(cap, before, old(used), txQueue, t, false);
        return Leave;
      }
      if buf.bufType == Unknown {
        RefusalAccounts(cap, before, old(used), txQueue, t, true);
        return Leave;
      }
      var starved, header := RecvHeader();
      if starved {
        ShortHeader(cap, before, old(used), txQueue, t, header);
        stuck := true;
        return Leave;
      }
      HeaderAccounts(cap, before, old(used), txQueue, t, header);
      if remaining > buf.Tailroom() {
        Unref();
      }
      return Handle;
    }

    /** Moves what the FIFO holds of the packet in progress into its buffer. */
    method Fill() returns (ghost taken: seq<Byte>)
      requires buf != null && buf.len + remaining <= buf.data.Length
      modifies this`remaining, uart, buf, buf.data
      ensures |taken| <= old(remaining) && remaining == old(remaining) - |taken|
      ensures buf.len == old(buf.len) + |taken| && buf.data[..buf.len] == old(buf.data[..buf.len]) + taken
      ensures old(uart.future) == taken + uart.future && uart.consumed == old(uart.consumed) + taken
      ensures uart.stalls <= old(uart.stalls)
      ensures remaining != 0 && uart.future != [] ==> uart.stalls < old(uart.stalls)
    {
      var read, starved, data := H4Read(uart, buf.data, buf.len, remaining, 0);
      taken := data;
      SplicePrefix(old(buf.data[..]), buf.len, taken);
      buf.len := buf.len + read;
      remaining := remaining - read;
      assert buf.data[..buf.len] == buf.data[..][..buf.len];
    }

    /** Moves what the FIFO holds of the packet in progress into its buffer, and queues the buffer once it is full. */
    method FillPacket()
      requires cap.Valid() && Accounted() && InPacket() && !stuck && buf != null
      modifies Footprint()
      ensures Footprint() <= old(Footprint())
      ensures Valid() && !stuck && used == old(used) && strangers == old(strangers)
      ensures old(txQueue) <= txQueue && (txQueue == old(txQueue) <==> remaining != 0)
      ensures uart.stalls <= old(uart.stalls) && |uart.future| <= |old(uart.future)|
      ensures old(remaining) != 0 && old(uart.future) != [] ==>
        uart.stalls + |uart.future| < old(uart.stalls + |uart.future|)
    {
      hide Accounts, Parse, Finish, Accounted;
      ghost var consumed, got, need := uart.consumed, buf.data[..buf.len], remaining;
      var kind := if buf.bufType == Cmd then Command else AclData;
      ghost var h := HeaderSize(kind);
      var taken := Fill();
      assert buf.data[..h] == (got + taken)[..h] == got[..h];
      FillAccounts(cap, consumed, used, txQueue, kind, got, need, taken);
      if remaining == 0 {
        Put(Packet(kind, buf.data[..buf.len]));
      }
    }

    /** Drops what the FIFO holds of an oversized packet. */
    method DiscardPacket()
      requires Valid() && !stuck && buf == null && 0 < remaining
      modifies Footprint()
      ensures Footprint() == old(Footprint())
      ensures Valid() && !stuck && buf == null
      ensures used == old(used) && strangers == old(strangers) && txQueue == old(txQueue)
      ensures uart.stalls <= old(uart.stalls) && |uart.future| <= |old(uart.future)|
      ensures old(uart.future) != [] ==> uart.stalls + |uart.future| < old(uart.stalls + |uart.future|)
    {
      hide Accounts, Parse, Finish, Accounted;
      ghost var consumed, left := uart.consumed, remaining;
      var read, taken := H4Discard(uart, remaining);
      DiscardAccounts(cap, consumed, used, txQueue, left, taken);
      remaining := remaining - read;
    }

    /** The interrupt routine, for one interrupt during which the controller reports `irqs` in turn. */
    method BtUartIsr(irqs: seq<Irq>)
      requires Valid() && !stuck
      modifies Footprint()
      ensures Valid() && fresh(Footprint() - old(Footprint()))
      ensures old(txQueue) <= txQueue && old(used) <= used && old(strangers) <= strangers
      // A long enough interrupt empties the FIFO, unless a buffer request ends it early.
      ensures !stuck && AllGranted(used[|old(used)|..]) && strangers == old(strangers) && AllReady(irqs) ==>
          uart.future == [] || uart.stalls + |uart.future| + |irqs| <= old(uart.stalls + |uart.future|)
    {
      hide Accounted, Accounts, Starved;
      var k := 0;
      while k < |irqs|
        invariant Valid() && !stuck && 0 <= k <= |irqs|
        invariant fresh(Footprint() - old(Footprint()))
        invariant old(txQueue) <= txQueue && old(used) <= used && old(strangers) <= strangers
        invariant uart.future == [] || uart.stalls + |uart.future| + k <= old(uart.stalls + |uart.future|)
      {
        if irqs[k] != RxReady {
          break;
        }
        k := k + 1;
        if remaining == 0 {
          var turn := BeginPacket();
          match turn {
            case Retry => continue;
            case Leave =>
              assert !stuck && strangers == old(strangers) ==> !used[|old(used)|..][|used| - 1 - |old(used)|];
              return;
            case Handle =>
          }
        }
        if buf == null {
          DiscardPacket();
          continue;
        }
        FillPacket();
      }
    }
  }

  /** Extending the record of buffer requests by grants not yet made changes nothing that is already queued. */
  lemma QueueIsParse(r: Receiver, more: seq<bool>)
    requires r.Valid()
    ensures r.txQueue == Parse(r.cap, r.uart.consumed, r.used + more)
  {
    if !r.stuck {
      var p := if r.remaining == 0 then Boundary else r.Held();
      assert r.uart.consumed + [] == r.uart.consumed;
      assert Finish(r.cap, p, [], more) == [];
      assert r.txQueue + [] == r.txQueue;
    }
  }

  /** Outcomes that are all grants agree as far as they go. */
  lemma GrantsAgree(a: seq<bool>, b: seq<bool>)
    requires AllGranted(a) && AllGranted(b)
    ensures a <= b || b <= a
  {}

  ghost function Grants(n: nat): (g: seq<bool>)
    ensures |g| == n && AllGranted(g)
  {
    seq(n, i => true)
  }

  /**
   * Split independence. Two receivers that have consumed the same octets, in whatever pieces and interrupts, have
   * queued the same packets, as long as their buffer requests went the same way: if none was refused, or the same ones.
   */
  lemma SplitIndependence(a: Receiver, b: Receiver)
    requires a.Valid() && b.Valid() && a.cap == b.cap
    requires a.uart.consumed == b.uart.consumed
    requires a.used <= b.used || b.used <= a.used
    ensures a.txQueue == b.txQueue
  {
    var (short, long) := if a.used <= b.used then (a, b) else (b, a);
    assert short.used + long.used[|short.used|..] == long.used + [];
    QueueIsParse(short, long.used[|short.used|..]);
    QueueIsParse(long, []);
  }

  /**
   * Once a stream of well-formed packets has been consumed, exactly those that fit their buffers are queued, in order:
   * an oversized packet costs nothing but itself.
   */
  lemma WellFormedStreamIsDelivered(r: Receiver, ps: seq<Packet>)
    requires r.Valid() && AllGranted(r.used)
    requires forall i :: 0 <= i < |ps| ==> WellFormed(ps[i])
    requires r.uart.consumed == EncodeAll(ps)
    ensures r.txQueue == Fitting(r.cap, ps)
  {
    QueueIsParse(r, Grants(|ps|));
    ParseEncodeAll(r.cap, ps, r.used + Grants(|ps|));
  }

  /** No buffer is lost unless the stack hands one out for an unknown packet type. */
  lemma NoBufferIsLost(r: Receiver, id: nat)
    requires r.Valid() && r.strangers == {} && id < |r.ledger|
    ensures (r.ledger[id] == InProgress && r.buf != null && r.buf.id == id)
         || (r.ledger[id] == Queued && exists j :: 0 <= j < |r.txQueue| && r.txIds[j] == id)
         || r.ledger[id] == Released
  {}
}
