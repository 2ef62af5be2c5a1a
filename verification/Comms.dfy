/** The UART link of the comms subsystem: the thread that reassembles messages, and the transmit path. */
module Comms {
  import opened Bytes
  import opened Framing
  import opened RingBuffer

  const UART_RINGBUF_SIZE := 512
  const MESSAGE_SIZE := 256
  const SIZE_T_MODULUS := 0x1_0000_0000

  /** Arithmetic on `size_t`, 32 bits wide on this target. */
  function Unsigned(x: int): (u: nat)
    requires -SIZE_T_MODULUS <= x < SIZE_T_MODULUS
    ensures u == if x < 0 then x + SIZE_T_MODULUS else x
  {
    x % SIZE_T_MODULUS
  }

  /** The message in progress with its length octet in front, and where it ends. */
  lemma Window(size: Byte, got: seq<Byte>, data: seq<Byte>, k: nat)
    requires k <= |data| && |got| + k == size
    ensures
      var w := [size] + got + data;
      w[1..1 + size] == got + data[..k] && w[1 + size..] == data[k..]
  {}

  lemma Prepend(size: Byte, got: seq<Byte>, data: seq<Byte>)
    ensures [size] + got + data == [size] + (got + data)
  {}

  /** The chunk makes the receiver copy octets past the end of `message`. */
  ghost predicate Overruns(r: Rx, chunk: seq<Byte>)
    requires r.WellFormed() && r.pending + chunk != []
  {
    var w := r.pending + chunk;
    if r.pending == [] && w[0] == 0 then false
    else if !r.Sound() || |w| - 1 < w[0] then |w| - 1 > MESSAGE_SIZE
    else TailOverruns(w[1 + w[0]..])
  }

  /** What follows a complete message does not fit, its length octet aside. */
  ghost predicate TailOverruns(tail: seq<Byte>) { tail != [] && tail[0] != 0 && |tail| - 1 > MESSAGE_SIZE }

  /** Chunks that suit never overrun. */
  lemma SuitingFits(r: Rx, chunk: seq<Byte>)
    requires r.Sound() && r.pending + chunk != [] && Suits(r.pending + chunk)
    ensures !Overruns(r, chunk)
  {}

  lemma OverrunsOpens(delivered: seq<seq<Byte>>, chunk: seq<Byte>)
    requires chunk != [] && chunk[0] != 0
    ensures [] + chunk == [chunk[0]] + chunk[1..]
    ensures Overruns(Rx(delivered, []), chunk) <==> Overruns(Rx(delivered, [chunk[0]]), chunk[1..])
  {}

  /** Chunk `i` is the one that makes the receiver leave `message`, or would be if none before did. */
  ghost predicate OverrunsAt(chunks: seq<seq<Byte>>, i: nat)
    requires i < |chunks|
  {
    chunks[i] != [] && Overruns(Run(chunks[..i]), chunks[i])
  }

  /**
   * A message in progress that is longer than its length octet says stays silent only so long: some chunk overruns
   * `message` exactly if more octets follow than it has room for.
   */
  lemma {:induction false} OverlongOverrunsIff(chunks: seq<seq<Byte>>, more: seq<seq<Byte>>)
    requires !Run(chunks).Sound() && |Run(chunks).pending| - 1 <= MESSAGE_SIZE
    ensures (exists i :: |chunks| <= i < |chunks + more| && OverrunsAt(chunks + more, i)) <==>
      |Run(chunks).pending| - 1 + |Concat(more)| > MESSAGE_SIZE
  {
    hide Run, OverrunsAt;
    if more == [] {
      assert chunks + more == chunks;
    } else {
      var n := |more| - 1;
      var all, init := chunks + more, chunks + more[..n];
      OverlongOverrunsIff(chunks, more[..n]);
      forall i | |chunks| <= i < |init|
        ensures OverrunsAt(all, i) <==> OverrunsAt(init, i)
      {
        OverrunsInPrefix(init, [more[n]], i);
        assert all == init + [more[n]];
      }
      OverlongOverrunsLast(chunks, more);
      RunOne(more);
    }
  }

  lemma OverrunsInPrefix(chunks: seq<seq<Byte>>, more: seq<seq<Byte>>, i: nat)
    requires i < |chunks|
    ensures OverrunsAt(chunks + more, i) <==> OverrunsAt(chunks, i)
  {
    assert (chunks + more)[..i] == chunks[..i];
  }

  lemma OverlongOverrunsLast(chunks: seq<seq<Byte>>, more: seq<seq<Byte>>)
    requires !Run(chunks).Sound() && more != []
    ensures OverrunsAt(chunks + more, |chunks| + |more| - 1) <==>
      more[|more| - 1] != [] && |Run(chunks).pending| - 1 + |Concat(more)| > MESSAGE_SIZE
  {
    var n := |more| - 1;
    hide Run, Concat, Overruns;
    OverlongIsForever(chunks, more[..n]);
    RunOne(more);
    assert (chunks + more)[..|chunks| + n] == chunks + more[..n];
    OverlongOverruns(Run(chunks + more[..n]), more[n]);
  }

  lemma OverlongOverruns(r: Rx, chunk: seq<Byte>)
    requires r.WellFormed() && !r.Sound()
    ensures Overruns(r, chunk) <==> |r.pending| - 1 + |chunk| > MESSAGE_SIZE
  {}

  /** How much of `data` the message in progress takes, with what is missing computed on `size_t`. */
  function ReadCount(size: Byte, filled: nat, data: seq<Byte>): (n: nat)
    requires filled <= MESSAGE_SIZE
    ensures n <= |data|
  {
    var remaining := Unsigned(size - filled);
    if |data| > remaining then remaining else |data|
  }

  /** The step in terms of the message in progress, `got`, and the octets at hand. */
  lemma ExtendIs(delivered: seq<seq<Byte>>, size: Byte, got: seq<Byte>, data: seq<Byte>)
    requires 0 < size && |got| <= MESSAGE_SIZE && |data| <= UART_RINGBUF_SIZE && (data == [] ==> |got| < size)
    ensures
      var r, k := Rx(delivered, [size] + got), ReadCount(size, |got|, data);
      var tail := data[k..];
      if Unsigned(size - |got|) == k then
        && |got| + k == size && (Overruns(r, data) <==> TailOverruns(tail))
        && Step(r, data) == Rx(delivered + [got + data[..k]], if tail == [] || tail[0] == 0 then [] else tail)
      else
        && (Overruns(r, data) <==> |got| + k > MESSAGE_SIZE)
        && Step(r, data) == Rx(delivered, [size] + (got + data[..k]))
  {
    var r, k := Rx(delivered, [size] + got), ReadCount(size, |got|, data);
    hide Step, TailOverruns, Suits;
    if Unsigned(size - |got|) == k {
      Window(size, got, data, k);
      StepCompletes(r, data);
    } else {
      Prepend(size, got, data);
      StepExtends(r, data);
      assert data[..k] == data;
    }
  }

  /** State of `comms_rx_thread`. */
  class CommsRx {
    const ring: RingBuf
    const message: array<Byte>
    var messageSize: nat
    // The distance of the write pointer from the start of `message`.
    var filled: nat
    // The messages passed to the callback.
    var delivered: seq<seq<Byte>>
    // A copy has run past the end of `message`; what the program does from then on is undefined.
    var smashed: bool
    // `comms_sem`, which holds at most one.
    var sem: bool

    // History: the chunks claimed so far.
    ghost var chunks: seq<seq<Byte>>

    constructor (ring: RingBuf)
      requires ring.Valid() && ring.claimed == 0 && ring.freed == []
      ensures this.ring == ring && Valid() && !smashed && !sem && chunks == []
    {
      this.ring, message := ring, new Byte[MESSAGE_SIZE];
      messageSize, filled, delivered, smashed, sem, chunks := 0, 0, [], false, false, [];
    }

    ghost function View(): Rx
      reads this, message
      requires filled <= message.Length && messageSize < 0x100
    {
      Rx(delivered, if messageSize == 0 then [] else [messageSize] + message[..filled])
    }

    ghost predicate Valid()
      reads this, ring, message
    {
      && ring.Valid() && ring.claimed == 0 && ring.freed == Concat(chunks)
      && message.Length == MESSAGE_SIZE
      && messageSize < 0x100 && filled <= MESSAGE_SIZE
      && View() == Run(chunks)
    }

    /** `UART_RX_RDY`: stores what the ring has room for, the rest being lost, and wakes the thread. */
    method RxReady(data: seq<Byte>) returns (written: nat)
      requires Valid()
      modifies this`sem, ring
      ensures Valid() && written <= |data| && sem
      ensures ring.contents == old(ring.contents) + data[..written]
      ensures ring.accepted == old(ring.accepted) + data[..written]
      ensures written < |data| ==> |ring.contents| == ring.capacity
    {
      written := ring.Put(data);
      sem := true;
    }

    method CopyIn(at: nat, data: seq<Byte>) returns (ok: bool)
      requires at <= message.Length
      modifies message
      ensures ok <==> at + |data| <= message.Length
      ensures ok ==> message[..at + |data|] == old(message[..at]) + data
    {
      ok := at + |data| <= message.Length;
      if ok {
        forall i | 0 <= i < |data| {
          message[at + i] := data[i];
        }
      }
    }

    /** After a delivery, everything that is left of the chunk goes to the next message. */
    method StartNext(tail: seq<Byte>)
      requires message.Length == MESSAGE_SIZE && !smashed
      modifies this`messageSize, this`filled, this`smashed, message
      ensures !smashed ==>
        && messageSize < 0x100 && filled <= MESSAGE_SIZE
        && View() == Rx(delivered, if tail == [] || tail[0] == 0 then [] else tail)
      ensures smashed <==> TailOverruns(tail)
    {
      filled := 0;
      if |tail| != 0 {
        messageSize := tail[0];
        if messageSize == 0 {
          return;
        }
        var ok := CopyIn(filled, tail[1..]);
        if !ok {
          smashed := true;
          return;
        }
        filled := filled + |tail[1..]|;
        assert tail == [messageSize] + message[..filled];
      } else {
        messageSize := 0;
      }
    }

    /** Hands the complete message to the callback and turns to what is left of the chunk. */
    method Deliver(tail: seq<Byte>)
      requires message.Length == MESSAGE_SIZE && messageSize < 0x100 && !smashed
      modifies this`messageSize, this`filled, this`delivered, this`smashed, message
      ensures !smashed ==>
        && messageSize < 0x100 && filled <= MESSAGE_SIZE
        && View() == Rx(old(delivered + [message[..messageSize]]), if tail == [] || tail[0] == 0 then [] else tail)
      ensures smashed <==> TailOverruns(tail)
    {
      delivered := delivered + [message[..messageSize]];
      StartNext(tail);
    }

    /** Extends the message in progress, whose length octet has been read, with `data` and delivers it if complete. */
    method Extend(data: seq<Byte>)
      requires message.Length == MESSAGE_SIZE && 0 < messageSize < 0x100 && filled <= MESSAGE_SIZE
      requires |data| <= UART_RINGBUF_SIZE && (data == [] ==> filled < messageSize) && !smashed
      modifies this`messageSize, this`filled, this`delivered, this`smashed, message
      ensures !smashed ==>
        && messageSize < 0x100 && filled <= MESSAGE_SIZE
        && View() == Step(old(View()), data)
      ensures smashed <==> Overruns(old(View()), data)
    {
      ghost var got := message[..filled];
      ExtendIs(delivered, messageSize, got, data);
      var remaining := Unsigned(messageSize - filled);
      var readCnt := if |data| > remaining then remaining else |data|;
      assert readCnt == ReadCount(messageSize, filled, data);
      assert Unsigned(remaining - readCnt) == 0 <==> remaining == readCnt;
      hide Step, Overruns, TailOverruns, ReadCount, Unsigned;
      var ok := CopyIn(filled, data[..readCnt]);
      if !ok {
        smashed := true;
        return;
      }
      ghost var longer := got + data[..readCnt];
      assert message[..filled + readCnt] == longer;
      if Unsigned(remaining - readCnt) == 0 {
        assert message[..messageSize] == longer;
        Deliver(data[readCnt..]);
      } else {
        filled := filled + readCnt;
        assert View() == Rx(delivered, [messageSize] + longer);
      }
    }

    /** The body of one turn of the thread's loop, up to its label `free`, for the chunk it has claimed. */
    method Consume(chunk: seq<Byte>)
      requires message.Length == MESSAGE_SIZE && messageSize < 0x100 && filled <= MESSAGE_SIZE
      requires chunk != [] && |chunk| <= UART_RINGBUF_SIZE && !smashed
      modifies this`messageSize, this`filled, this`delivered, this`smashed, message
      ensures !smashed ==>
        && messageSize < 0x100 && filled <= MESSAGE_SIZE
        && View() == Step(old(View()), chunk)
      ensures smashed <==> Overruns(old(View()), chunk)
    {
      var start := 0;
      if messageSize == 0 {
        filled := 0;
        messageSize, start := chunk[0], 1;
        if messageSize == 0 {
          return;
        }
        assert [messageSize] + message[..0] == [chunk[0]];
        StepOpens(delivered, chunk);
        OverrunsOpens(delivered, chunk);
      }
      hide Step, Overruns;
      Extend(chunk[start..]);
    }

    /** The end of a turn: frees the chunk, which has been used. */
    method Free(chunk: seq<Byte>)
      requires ring.Valid() && ring.claimed == |chunk| && chunk == ring.contents[..|chunk|]
      requires ring.freed == Concat(chunks)
      requires message.Length == MESSAGE_SIZE && messageSize < 0x100 && filled <= MESSAGE_SIZE
      requires View() == Step(Run(chunks), chunk)
      modifies this`chunks, ring
      ensures Valid() && chunks == old(chunks) + [chunk]
      ensures ring.contents == old(ring.contents)[|chunk|..] && ring.accepted == old(ring.accepted)
    {
      RunNext(chunks, chunk);
      hide Step, Run, Concat;
      var failed := ring.GetFinish(|chunk|);
      chunks := chunks + [chunk];
    }

    /** Something is in the ring, but the thread will not look before more is received. */
    ghost predicate Stranded()
      reads this, ring
    {
      !sem && ring.contents != []
    }

    /** One turn of the thread's endless loop: take a chunk from the ring, use it, free it. */
    method Iterate() returns (chunk: seq<Byte>)
      requires Valid() && !smashed && sem
      modifies this, ring, message
      ensures chunk <= old(ring.contents) && |chunk| <= UART_RINGBUF_SIZE
      ensures chunk == [] <==> old(ring.contents) == []
      // A copy leaves `message` exactly if the chunk overruns it.
      ensures smashed <==> chunk != [] && Overruns(old(View()), chunk)
      ensures !smashed ==>
        && Valid() && View() == Step(old(View()), chunk)
        && chunks == old(chunks) + (if chunk == [] then [] else [chunk])
        && ring.contents == old(ring.contents)[|chunk|..] && ring.accepted == old(ring.accepted)
      // The rest waits for the next octets exactly if the claim ended before the ring's contents.
      ensures !smashed ==> (Stranded() <==> |chunk| < |old(ring.contents)|)
    {
      hide Step, Run, Concat, Overruns;
      sem := false;
      chunk := ring.GetClaim(UART_RINGBUF_SIZE);
      if |chunk| == 0 {
        StepNothing(View());
        return;
      }
      Consume(chunk);
      if smashed {
        return;
      }
      Free(chunk);
    }
  }

  /**
   * What the thread has handed on, plus a complete message it still holds, is what the octets it consumed parse to,
   * and every octet the ring ever accepted has been consumed once or is still there.
   */
  lemma Reassembled(rx: CommsRx)
    requires rx.Valid() && SuitsThroughout(rx.chunks)
    ensures Frames(Concat(rx.chunks)) == rx.delivered + Frames(rx.View().pending)
    ensures rx.messageSize != 0 ==> rx.filled <= rx.messageSize <= 255
    ensures rx.ring.accepted == Concat(rx.chunks) + rx.ring.contents
  {
    RunMatchesIff(rx.chunks);
    assert rx.chunks[..|rx.chunks|] == rx.chunks;
    assert MatchesAfter(rx.chunks, |rx.chunks|);
    hide Suits, Run, Frames, Rest;
    assert rx.messageSize != 0 ==> |rx.View().pending| == 1 + rx.filled;
  }

  /** `EBUSY` stands for the driver's refusal to start a transfer while one is running. */
  datatype TxError = NoError | ENOMEM | EBUSY

  /** The transmit path: a ring of octets and the UART that drains it. */
  class CommsTx {
    const ring: RingBuf

    // The block the UART is transmitting; empty when it is idle.
    var inFlight: seq<Byte>

    // History: the blocks given to the UART, joined.
    ghost var sent: seq<Byte>

    constructor (ring: RingBuf)
      requires ring.Valid() && ring.contents == [] && ring.accepted == []
      ensures this.ring == ring && Valid() && inFlight == []
    {
      this.ring, inFlight, sent := ring, [], [];
    }

    /** The block in flight is the claimed front of the ring, and an idle UART means an empty ring. */
    ghost predicate InStep()
      reads this, ring
    {
      && ring.Valid()
      && inFlight <= ring.contents && ring.claimed == |inFlight|
      && (inFlight == [] ==> ring.contents == [])
    }

    /** Besides, what was given to the UART is what was accepted, in order. */
    ghost predicate Valid()
      reads this, ring
    {
      InStep() && sent == ring.freed + inFlight
    }

    /** How many accepted octets are neither with the UART nor going to be: 0 as long as none are lost. */
    ghost function Lost(): int
      reads this, ring
    {
      |ring.accepted| - |sent| - (|ring.contents| - |inFlight|)
    }

    /** `uart_tx`: an idle UART accepts the block, a busy one refuses it. */
    method UartTx(block: seq<Byte>) returns (busy: bool)
      requires block != []
      modifies this
      ensures busy <==> old(inFlight) != []
      ensures inFlight == if busy then old(inFlight) else block
      ensures sent == if busy then old(sent) else old(sent) + block
    {
      busy := inFlight != [];
      if !busy {
        inFlight, sent := block, sent + block;
      }
    }

    /** Gives the UART the next block. If the UART refuses it, the front of the ring is freed by the block's length. */
    method StartTx() returns (err: TxError)
      requires ring.Valid()
      modifies this, ring
      ensures ring.Valid() && ring.accepted == old(ring.accepted) && err == NoError
      ensures old(inFlight) == [] ==>
        && ring.contents == old(ring.contents) && ring.freed == old(ring.freed)
        && ring.claimed == old(ring.claimed) + |inFlight|
        && inFlight == ring.contents[old(ring.claimed)..ring.claimed] && sent == old(sent) + inFlight
        && (inFlight == [] <==> old(ring.claimed) == |ring.contents|)
      ensures old(inFlight) != [] ==>
        var freed := |old(ring.contents)| - |ring.contents|;
        && inFlight == old(inFlight) && sent == old(sent)
        && 0 <= freed <= |old(ring.contents)| - old(ring.claimed)
        && (freed == 0 <==> old(ring.claimed) == |old(ring.contents)|)
        && ring.contents == old(ring.contents)[freed..]
        && ring.claimed == if freed == 0 then old(ring.claimed) else 0
    {
      err := NoError;
      var block := ring.GetClaim(UART_RINGBUF_SIZE);
      if |block| != 0 {
        var busy := UartTx(block);
        if busy {
          var failed := ring.GetFinish(|block|);
          // The code reports the outcome of freeing the block, not the refusal.
          err := if failed then EBUSY else NoError;
        }
      }
    }

    /**
     * `comms_write`. It loses octets if and only if it stores some while a transfer is running, and the order of what
     * is transmitted is kept otherwise; success is reported either way.
     */
    method CommsWrite(data: seq<Byte>) returns (err: TxError, ghost written: nat)
      requires ring.Valid()
      modifies this, ring
      ensures ring.Valid()
      ensures written <= |data| && ring.accepted == old(ring.accepted) + data[..written]
      ensures written < |data| ==> |old(ring.contents)| + written == ring.capacity
      ensures err == if written == 0 then ENOMEM else NoError
      ensures Lost() >= old(Lost())
      ensures Lost() > old(Lost()) <==> old(inFlight) != [] && written != 0
      ensures old(Valid()) ==> (Valid() <==> old(inFlight) == [] || written == 0)
      ensures err == ENOMEM ==> ring.contents == old(ring.contents) && inFlight == old(inFlight)
    {
      var stored := ring.Put(data);
      written := stored;
      if stored == 0 {
        return ENOMEM, 0;
      }
      err := StartTx();
    }

    /**
     * `UART_TX_DONE` for the whole block: frees it and goes on with what is left. After writes during the transfer the
     * ring may hold less than the block; otherwise nothing more is lost, and ring and UART are in step again.
     */
    method TxDone()
      requires ring.Valid() && inFlight != []
      modifies this, ring
      ensures ring.Valid() && ring.accepted == old(ring.accepted) && old(sent) <= sent
      ensures old(Valid()) ==> Valid()
      ensures |old(inFlight)| <= |old(ring.contents)| ==>
        && InStep() && Lost() == old(Lost())
        && ring.contents == old(ring.contents)[|old(inFlight)|..]
      ensures |old(inFlight)| > |old(ring.contents)| ==>
        ring.contents == old(ring.contents) && (inFlight == [] <==> old(ring.claimed) == |ring.contents|)
    {
      var len := |inFlight|;
      inFlight := [];
      var failed := ring.GetFinish(len);
      if ring.contents != [] {
        var err := StartTx();
      }
    }

    /** `UART_TX_ABORTED` after `len` octets: frees those and stops; the rest stays behind unless there is none. */
    method TxAborted(len: nat)
      requires ring.Valid() && inFlight != [] && len <= |inFlight|
      modifies this, ring
      ensures ring.Valid() && ring.accepted == old(ring.accepted)
      ensures inFlight == [] && sent == old(sent)
      ensures ring.contents == if len <= |old(ring.contents)| then old(ring.contents)[len..] else old(ring.contents)
      ensures old(Valid()) ==> (Valid() <==> len == |old(ring.contents)|)
    {
      inFlight := [];
      var failed := ring.GetFinish(len);
    }
  }

  /** Between transfers everything accepted has gone to the UART, in order; during one, all but what follows it. */
  lemma TransmittedInOrder(tx: CommsTx)
    requires tx.Valid()
    ensures tx.sent + tx.ring.contents[|tx.inFlight|..] == tx.ring.accepted
    ensures tx.inFlight == [] ==> tx.sent == tx.ring.accepted
    ensures tx.Lost() == 0
  {
    assert tx.ring.contents == tx.inFlight + tx.ring.contents[|tx.inFlight|..];
  }
}
