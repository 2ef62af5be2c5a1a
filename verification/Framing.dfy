/**
 * The serial framing: a length octet followed by that many octets of message, zero lengths being skipped.
 * The stream as a whole, the receiver's step on one chunk of it, and when the two agree.
 */
module Framing {
  import opened Bytes

  /** The complete messages of a stream. */
  ghost function Frames(s: seq<Byte>): seq<seq<Byte>> {
    if s == [] then []
    else if s[0] == 0 then Frames(s[1..])
    else if |s| - 1 < s[0] then []
    else [s[1..1 + s[0]]] + Frames(s[1 + s[0]..])
  }

  /** What is left of a stream after its complete messages: nothing, or the start of one. */
  ghost function Rest(s: seq<Byte>): seq<Byte> {
    if s == [] then []
    else if s[0] == 0 then Rest(s[1..])
    else if |s| - 1 < s[0] then s
    else Rest(s[1 + s[0]..])
  }

  lemma ParseFirst(w: seq<Byte>)
    requires w != [] && w[0] != 0 && w[0] <= |w| - 1
    ensures Frames(w) == [w[1..1 + w[0]]] + Frames(w[1 + w[0]..])
    ensures Rest(w) == Rest(w[1 + w[0]..])
  {}

  lemma ParseIncomplete(w: seq<Byte>)
    requires w == [] || |w| - 1 < w[0]
    ensures Frames(w) == [] && Rest(w) == w
  {}

  lemma ParseZero(w: seq<Byte>)
    requires w != [] && w[0] == 0
    ensures Frames(w) == Frames(w[1..]) && Rest(w) == Rest(w[1..])
  {}

  /** A stream may be parsed piecewise: what the first piece leaves over goes in front of the second. */
  lemma {:induction false} ParsePiecewise(s: seq<Byte>, t: seq<Byte>)
    ensures Frames(s + t) == Frames(s) + Frames(Rest(s) + t)
    ensures Rest(s + t) == Rest(Rest(s) + t)
    decreases |s|
  {
    hide Frames, Rest;
    if s == [] {
      ParseIncomplete(s);
      assert s + t == t && [] + Frames(t) == Frames(t);
    } else if s[0] == 0 {
      ParseZero(s);
      ParseZero(s + t);
      assert (s + t)[1..] == s[1..] + t;
      ParsePiecewise(s[1..], t);
    } else if |s| - 1 < s[0] {
      ParseIncomplete(s);
      assert [] + Frames(s + t) == Frames(s + t);
    } else {
      var n: nat := 1 + s[0] as int;
      var m, u := s[1..n], s[n..];
      ParseFirst(s);
      ParseFirst(s + t);
      assert (s + t)[1..n] == m && (s + t)[n..] == u + t;
      ParsePiecewise(u, t);
      Associative([m], Frames(u), Frames(Rest(u) + t));
    }
  }

  ghost predicate AllZero(s: seq<Byte>) { forall i :: 0 <= i < |s| ==> s[i] == 0 }

  lemma {:induction false} NothingInIffAllZero(s: seq<Byte>)
    ensures Frames(s) == [] && Rest(s) == [] <==> AllZero(s)
    decreases |s|
  {
    if s == [] {
    } else if s[0] == 0 {
      NothingInIffAllZero(s[1..]);
    }
  }

  ghost function EncodeAll(ms: seq<seq<Byte>>): seq<Byte>
    requires forall i :: 0 <= i < |ms| ==> 1 <= |ms[i]| <= 255
  {
    if ms == [] then [] else [|ms[0]|] + ms[0] + EncodeAll(ms[1..])
  }

  lemma {:induction false} FramesOfEncodeAll(ms: seq<seq<Byte>>)
    requires forall i :: 0 <= i < |ms| ==> 1 <= |ms[i]| <= 255
    ensures Frames(EncodeAll(ms)) == ms && Rest(EncodeAll(ms)) == []
  {
    if ms == [] {
    } else {
      var s, n := EncodeAll(ms), 1 + |ms[0]|;
      assert s[1..n] == ms[0];
      assert s[n..] == EncodeAll(ms[1..]);
      FramesOfEncodeAll(ms[1..]);
    }
  }

  // ---------------------------------------------------------------- the receiver

  /**
   * `pending` is the message in progress, length octet first; it may already be complete and still be held back
   * until more octets arrive.
   */
  datatype Rx = Rx(delivered: seq<seq<Byte>>, pending: seq<Byte>) {
    predicate WellFormed() { pending == [] || pending[0] != 0 }

    /** The message in progress does not exceed its length octet. */
    predicate Sound() { pending == [] || (pending[0] != 0 && |pending| - 1 <= pending[0]) }
  }

  /** What one chunk does to the receiver: at most one delivery; the octets after it all go to the next message. */
  function Step(r: Rx, chunk: seq<Byte>): Rx
    requires r.WellFormed()
  {
    var w := r.pending + chunk;
    if chunk == [] then r
    else if r.pending == [] && w[0] == 0 then Rx(r.delivered, [])
    else if !r.Sound() || |w| - 1 < w[0] then Rx(r.delivered, w)
    else
      var tail := w[1 + w[0]..];
      Rx(r.delivered + [w[1..1 + w[0]]], if tail == [] || tail[0] == 0 then [] else tail)
  }

  /** The receiver has handed on, or holds complete, exactly the messages of what it consumed. */
  ghost predicate Matches(r: Rx, consumed: seq<Byte>) {
    && r.Sound()
    && Frames(consumed) == r.delivered + Frames(r.pending)
    && Rest(consumed) == Rest(r.pending)
  }

  /**
   * The message in progress followed by the chunk: after the first message there is at most one more,
   * and a zero length octet is followed by zeros only.
   */
  ghost predicate Suits(w: seq<Byte>) {
    if w == [] then true
    else if w[0] == 0 then AllZero(w)
    else |w| - 1 < w[0] || OneMoreAtMost(w[1 + w[0]..])
  }

  lemma StepNothing(r: Rx)
    requires r.WellFormed()
    ensures Step(r, []) == r
  {}

  lemma StepCompletes(r: Rx, chunk: seq<Byte>)
    requires r.Sound() && r.pending != [] && |r.pending + chunk| - 1 >= r.pending[0]
    requires chunk != []
    ensures
      var w := r.pending + chunk;
      var tail := w[1 + w[0]..];
      && Step(r, chunk) == Rx(r.delivered + [w[1..1 + w[0]]], if tail == [] || tail[0] == 0 then [] else tail)
      && (Suits(w) <==> OneMoreAtMost(tail))
  {}

  lemma StepExtends(r: Rx, chunk: seq<Byte>)
    requires r.WellFormed() && r.pending != []
    requires r.Sound() ==> |r.pending + chunk| - 1 < r.pending[0]
    ensures Step(r, chunk) == Rx(r.delivered, r.pending + chunk)
  {
    assert r.pending + [] == r.pending;
  }

  /** Reading a length octet first and going on with the rest of the chunk is one and the same step. */
  lemma StepOpens(delivered: seq<seq<Byte>>, chunk: seq<Byte>)
    requires chunk != [] && chunk[0] != 0
    ensures [] + chunk == [chunk[0]] + chunk[1..]
    ensures Step(Rx(delivered, []), chunk) == Step(Rx(delivered, [chunk[0]]), chunk[1..])
  {}

  /** Octet by octet: at most one message of a chunk is delivered, and the next one gets all that is left. */
  lemma StepOctets(delivered: seq<seq<Byte>>, held: seq<Byte>, chunk: seq<Byte>, message: seq<Byte>, tail: seq<Byte>)
    requires chunk != [] && 1 <= |message| <= 255 && |held| <= 1 + |message| && (held != [] ==> held[0] != 0)
    requires held + chunk == [|message|] + message + tail
    ensures Step(Rx(delivered, held), chunk)
         == Rx(delivered + [message], if tail == [] || tail[0] == 0 then [] else tail)
  {
    var w := held + chunk;
    assert w[0] == |message| && w[1..1 + |message|] == message && w[1 + |message|..] == tail;
    assert held != [] ==> held[0] == w[0];
  }

  /** A message that is not complete yet keeps all octets, and a zero length octet costs the rest of its chunk. */
  lemma StepKeepsOrDrops(delivered: seq<seq<Byte>>, held: seq<Byte>, chunk: seq<Byte>)
    requires held != [] ==> held[0] != 0
    requires chunk != []
    ensures held == [] && chunk[0] == 0 ==> Step(Rx(delivered, held), chunk) == Rx(delivered, [])
    ensures (held + chunk)[0] != 0 && |held + chunk| <= (held + chunk)[0] ==>
      Step(Rx(delivered, held), chunk) == Rx(delivered, held + chunk)
  {}

  ghost predicate OneMoreAtMost(tail: seq<Byte>) {
    if tail == [] then true
    else if tail[0] == 0 then AllZero(tail)
    else |tail| - 1 <= tail[0]
  }

  /** A receiver in state `r'` has handed on or holds what one in state `r` had, and what `w` parses to. */
  ghost predicate Yields(r: Rx, w: seq<Byte>, r': Rx) {
    && r'.Sound()
    && r.delivered + Frames(w) == r'.delivered + Frames(r'.pending)
    && Rest(w) == Rest(r'.pending)
  }

  lemma YieldsDelivery(r: Rx, w: seq<Byte>, r': Rx)
    requires w != [] && w[0] != 0 && w[0] <= |w| - 1
    requires
      var tail := w[1 + w[0]..];
      r' == Rx(r.delivered + [w[1..1 + w[0]]], if tail == [] || tail[0] == 0 then [] else tail)
    ensures Yields(r, w, r') <==> OneMoreAtMost(w[1 + w[0]..])
  {
    var m, tail := w[1..1 + w[0]], w[1 + w[0]..];
    ParseFirst(w);
    ParseIncomplete([]);
    NothingInIffAllZero(tail);
    hide Frames, Rest, AllZero;
    Associative(r.delivered, [m], Frames(tail));
    assert r.delivered + Frames(w) == r'.delivered + Frames(tail);
    assert r'.delivered + Frames(tail) == r'.delivered + [] <==> Frames(tail) == [] by {
      assert |r'.delivered + Frames(tail)| == |r'.delivered| + |Frames(tail)|;
    }
  }

  /** The step in terms of the octets at hand, `w`: they yield what they parse to iff they suit. */
  lemma StepYieldsIff(r: Rx, chunk: seq<Byte>)
    requires r.Sound()
    ensures Yields(r, r.pending + chunk, Step(r, chunk)) <==> Suits(r.pending + chunk)
  {
    var w, r' := r.pending + chunk, Step(r, chunk);
    ParseIncomplete([]);
    hide Frames, Rest, AllZero;
    assert r'.delivered + [] == r'.delivered;
    if chunk == [] {
      assert w == r.pending;
    } else if |w| - 1 < w[0] {
      ParseIncomplete(w);
    } else if w[0] == 0 {
      NothingInIffAllZero(w);
      assert |r.delivered + Frames(w)| == |r.delivered| + |Frames(w)|;
    } else {
      hide Yields;
      YieldsDelivery(r, w, r');
    }
  }

  /** One step keeps the receiver in agreement with the stream if and only if the chunk suits it. */
  lemma StepMatchesIff(r: Rx, consumed: seq<Byte>, chunk: seq<Byte>)
    requires Matches(r, consumed)
    ensures Matches(Step(r, chunk), consumed + chunk) <==> Suits(r.pending + chunk)
  {
    var w := r.pending + chunk;
    hide Frames, Rest, Suits, Step;
    ParsePiecewise(consumed, chunk);
    ParsePiecewise(r.pending, chunk);
    Associative(r.delivered, Frames(r.pending), Frames(Rest(consumed) + chunk));
    assert Frames(consumed + chunk) == r.delivered + Frames(w) && Rest(consumed + chunk) == Rest(w);
    StepYieldsIff(r, chunk);
  }

  ghost function Run(chunks: seq<seq<Byte>>): (r: Rx)
    ensures r.WellFormed()
  {
    if chunks == [] then Rx([], []) else Step(Run(chunks[..|chunks| - 1]), chunks[|chunks| - 1])
  }

  ghost function Concat(chunks: seq<seq<Byte>>): seq<Byte> {
    if chunks == [] then [] else Concat(chunks[..|chunks| - 1]) + chunks[|chunks| - 1]
  }

  /** After the first `i` chunks the receiver agrees with the stream. */
  ghost predicate MatchesAfter(chunks: seq<seq<Byte>>, i: nat)
    requires i <= |chunks|
  {
    Matches(Run(chunks[..i]), Concat(chunks[..i]))
  }

  ghost predicate MatchesThroughout(chunks: seq<seq<Byte>>) {
    forall i: nat :: i <= |chunks| ==> MatchesAfter(chunks, i)
  }

  /** Chunk `i` suits the receiver that gets it. */
  ghost predicate SuitsAt(chunks: seq<seq<Byte>>, i: nat)
    requires i < |chunks|
  {
    Suits(Run(chunks[..i]).pending + chunks[i])
  }

  ghost predicate SuitsThroughout(chunks: seq<seq<Byte>>) {
    forall i: nat :: i < |chunks| ==> SuitsAt(chunks, i)
  }

  lemma RunOne(chunks: seq<seq<Byte>>)
    requires chunks != []
    ensures
      var n := |chunks| - 1;
      Run(chunks) == Step(Run(chunks[..n]), chunks[n]) && Concat(chunks) == Concat(chunks[..n]) + chunks[n]
  {}

  lemma RunNext(chunks: seq<seq<Byte>>, chunk: seq<Byte>)
    ensures Run(chunks + [chunk]) == Step(Run(chunks), chunk)
    ensures Concat(chunks + [chunk]) == Concat(chunks) + chunk
  {
    assert (chunks + [chunk])[..|chunks|] == chunks;
  }

  /** What happens up to chunk `i` does not depend on what follows it. */
  lemma OfPrefix(chunks: seq<seq<Byte>>, n: nat, i: nat)
    requires i <= n <= |chunks|
    ensures MatchesAfter(chunks[..n], i) <==> MatchesAfter(chunks, i)
    ensures i < n ==> (SuitsAt(chunks[..n], i) <==> SuitsAt(chunks, i))
  {
    hide Matches, Suits, Run, Concat;
    assert chunks[..n][..i] == chunks[..i];
  }

  lemma ThroughoutLast(chunks: seq<seq<Byte>>)
    requires chunks != []
    ensures
      var n := |chunks| - 1;
      && (MatchesThroughout(chunks) <==> MatchesThroughout(chunks[..n]) && MatchesAfter(chunks, n + 1))
      && (SuitsThroughout(chunks) <==> SuitsThroughout(chunks[..n]) && SuitsAt(chunks, n))
  {
    var n := |chunks| - 1;
    forall i: nat | i <= n
      ensures MatchesAfter(chunks[..n], i) <==> MatchesAfter(chunks, i)
      ensures i < n ==> (SuitsAt(chunks[..n], i) <==> SuitsAt(chunks, i))
    {
      OfPrefix(chunks, n, i);
    }
    hide MatchesAfter, SuitsAt;
  }

  /** For every stream and every chunking of it: the receiver agrees throughout iff every chunk suits it. */
  lemma {:induction false} RunMatchesIff(chunks: seq<seq<Byte>>)
    ensures MatchesThroughout(chunks) <==> SuitsThroughout(chunks)
  {
    if chunks == [] {
      assert chunks[..0] == [];
    } else {
      var n := |chunks| - 1;
      RunMatchesIff(chunks[..n]);
      ThroughoutLast(chunks);
      hide MatchesThroughout, SuitsThroughout;
      if MatchesThroughout(chunks[..n]) {
        RunMatchesLast(chunks);
      }
    }
  }

  lemma RunMatchesLast(chunks: seq<seq<Byte>>)
    requires chunks != [] && MatchesThroughout(chunks[..|chunks| - 1])
    ensures MatchesAfter(chunks, |chunks|) <==> SuitsAt(chunks, |chunks| - 1)
  {
    var n := |chunks| - 1;
    var init := chunks[..n];
    assert MatchesAfter(init, n);
    assert init[..n] == init && chunks[..n + 1] == chunks;
    RunOne(chunks);
    hide Matches, Suits, Step, Run, Concat;
    StepMatchesIff(Run(init), Concat(init), chunks[n]);
  }

  /** A receiver that holds nothing complete is suited by any single octet and again holds nothing complete. */
  lemma OctetStep(r: Rx, octet: Byte)
    requires r.Sound() && Frames(r.pending) == []
    ensures Suits(r.pending + [octet]) && Frames(Step(r, [octet]).pending) == []
  {
    var w := r.pending + [octet];
    if |w| - 1 >= w[0] && w[0] != 0 {
      assert w[1 + w[0]..] == [];
    }
  }

  /** Fed one octet at a time, the receiver delivers every message as soon as it is complete, whatever the stream. */
  lemma {:induction false} OctetwiseMatches(chunks: seq<seq<Byte>>)
    requires forall i :: 0 <= i < |chunks| ==> |chunks[i]| == 1
    ensures Frames(Run(chunks).pending) == []
    ensures Matches(Run(chunks), Concat(chunks))
    ensures Run(chunks).delivered == Frames(Concat(chunks))
  {
    if chunks == [] {
    } else {
      var n := |chunks| - 1;
      var r := Run(chunks[..n]);
      OctetwiseMatches(chunks[..n]);
      RunOne(chunks);
      OctetStep(r, chunks[n][0]);
      assert chunks[n] == [chunks[n][0]];
      hide Step, Run, Concat, Frames, Rest, Suits;
      StepMatchesIff(r, Concat(chunks[..n]), chunks[n]);
      assert r.delivered + [] == r.delivered;
    }
  }

  /**
   * Once a message in progress is longer than its length octet says, all that follows is added to it and nothing is
   * delivered any more, for as long as there is room to add to it.
   */
  lemma {:induction false} OverlongIsForever(chunks: seq<seq<Byte>>, more: seq<seq<Byte>>)
    requires !Run(chunks).Sound()
    ensures !Run(chunks + more).Sound()
    ensures Run(chunks + more) == Rx(Run(chunks).delivered, Run(chunks).pending + Concat(more))
  {
    if more == [] {
      assert chunks + more == chunks;
      assert Run(chunks).pending + [] == Run(chunks).pending;
    } else {
      var n := |more| - 1;
      OverlongIsForever(chunks, more[..n]);
      OverlongStep(Run(chunks + more[..n]), more[n]);
      assert chunks + more == (chunks + more[..n]) + [more[n]];
      RunNext(chunks + more[..n], more[n]);
      RunOne(more);
      Associative(Run(chunks).pending, Concat(more[..n]), more[n]);
    }
  }

  lemma OverlongStep(r: Rx, chunk: seq<Byte>)
    requires r.WellFormed() && !r.Sound()
    ensures Step(r, chunk) == Rx(r.delivered, r.pending + chunk) && !Step(r, chunk).Sound()
  {
    assert r.pending + [] == r.pending;
  }

  lemma ShortFirst(x: Byte, rest: seq<Byte>)
    ensures Frames([1, x] + rest) == [[x]] + Frames(rest)
  {
    var w := [1, x] + rest;
    assert w[1..2] == [x] && w[2..] == rest;
    ParseFirst(w);
  }

  lemma ThreeMessages(a: Byte, b: Byte, c: Byte)
    ensures Frames([1, a, 1, b, 1, c]) == [[a], [b], [c]]
  {
    ParseIncomplete([]);
    hide Frames;
    ShortFirst(c, []);
    ShortFirst(b, [1, c] + []);
    ShortFirst(a, [1, b] + ([1, c] + []));
    assert [1, a, 1, b, 1, c] == [1, a] + ([1, b] + ([1, c] + []));
  }

  lemma RunFirst(chunk: seq<Byte>)
    ensures Run([chunk]) == Step(Rx([], []), chunk)
  {
    assert [chunk][..0] == [];
  }

  lemma StepShortFirst(x: Byte, tail: seq<Byte>)
    requires tail != [] && tail[0] != 0
    ensures Step(Rx([], []), [1, x] + tail) == Rx([[x]], tail)
    ensures Suits([1, x] + tail) <==> |tail| - 1 <= tail[0]
  {
    var w := [1, x] + tail;
    assert [] + w == w && w[1..2] == [x] && w[2..] == tail;
    assert [] + [[x]] == [[x]];
    hide AllZero;
  }

  /**
   * Of three short messages in one chunk only the first comes out, and nothing after it, whatever follows, for as long
   * as there is room to add to the overlong second one.
   */
  lemma ThreeMessagesInOneChunk(a: Byte, b: Byte, c: Byte, more: seq<seq<Byte>>)
    ensures
      var chunk := [1, a, 1, b, 1, c];
      && Frames(chunk) == [[a], [b], [c]]
      && !Suits(chunk)
      && Run([chunk]) == Rx([[a]], [1, b, 1, c])
      && Run([chunk] + more).delivered == [[a]]
  {
    ThreeMessages(a, b, c);
    StepShortFirst(a, [1, b, 1, c]);
    RunFirst([1, a] + [1, b, 1, c]);
    hide Frames, Run, Step, Suits, Concat;
    assert [1, a, 1, b, 1, c] == [1, a] + [1, b, 1, c];
    OverlongIsForever([[1, a] + [1, b, 1, c]], more);
  }
}
