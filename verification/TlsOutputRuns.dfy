/** Any run of calls of the TLS output path: flushes, handshake messages, ChangeCipherSpecs and writes of
    application data, with interrupted writes tried again (BoringSSL/include/openssl/ssl.h:364-379). */
module TlsOutputRuns {
  import opened Wrappers
  import opened TlsOutput

  datatype Call =
    | Flush
    | Message(msg: seq<byte>)
    | ChangeCipherSpec
    | Write(addr: nat, data: seq<byte>)

  /** Why a call did not get through: the transport refused, a seal failed, there is no record to seal or
      no room for it behind the flight, or the write was turned down as a bad retry or because a failed seal
      has left the buffer taken. */
  datatype Cause = Through | Refused | SealFailed | NoRoom | TurnedDown

  datatype Event = Event(call: Call, ret: int, cause: Cause)

  /** The data that the writes of a run have reported as written. */
  function Accepted(h: seq<Event>): seq<byte> {
    if h == [] then []
    else
      var e := h[|h| - 1];
      Accepted(h[..|h| - 1]) + if e.call.Write? && 0 < e.ret <= |e.call.data| then e.call.data[..e.ret] else []
  }

  /** The messages of a run, one after another. */
  function Messages(h: seq<Event>): seq<byte> {
    if h == [] then []
    else
      var e := h[|h| - 1];
      Messages(h[..|h| - 1]) + if e.call.Message? then e.call.msg else []
  }

  /** The write that is to be tried again. */
  function Unfinished(h: seq<Event>): (call: Option<Call>)
    ensures call.Some? ==> call.value.Write?
  {
    if h == [] then None
    else
      var e := h[|h| - 1];
      if !e.call.Write? then Unfinished(h[..|h| - 1])
      else if e.ret > 0 || e.call.data == [] then None
      else Some(e.call)
  }

  /** What `SSL_write` asks of a caller that tries again: the same bytes, or more with these in front,
      and at the same place unless buffers may move. */
  predicate TriesAgain(moving: bool, was: Call, call: Call)
    requires was.Write? && call.Write?
  {
    was.data <= call.data && (moving || was.addr == call.addr)
  }

  /** Every interrupted write is tried again before another one. */
  predicate Disciplined(moving: bool, h: seq<Event>) {
    if h == [] then true
    else
      var call, before := h[|h| - 1].call, h[..|h| - 1];
      && Disciplined(moving, before)
      && (call.Write? && Unfinished(before).Some? ==> TriesAgain(moving, Unfinished(before).value, call))
  }

  predicate NoneTurnedDown(h: seq<Event>) {
    forall i | 0 <= i < |h| :: !h[i].cause.TurnedDown?
  }

  /** How many calls the transport refused. */
  function Refusals(h: seq<Event>): nat {
    if h == [] then 0
    else Refusals(h[..|h| - 1]) + if h[|h| - 1].cause.Refused? then 1 else 0
  }

  /** Some seal from one number up to another failed. */
  ghost predicate SealFails(sealer: Sealer, from: nat, to: nat) {
    exists n: nat, kind: nat, body :: from <= n < to && sealer.seal(n, kind, body).None?
  }

  /** The application data after a run that began when it was `start`: what the writes have reported,
      and behind it a first part of the write that is to be tried again. */
  ghost predicate InStep(o: Output, start: seq<byte>, h: seq<Event>)
    reads o`plain, o`wnum, o`pending, o`pendTot, o`pendAddr, o`pendType
  {
    match Unfinished(h)
    case None => o.plain == start + Accepted(h) && !o.pending && o.wnum == 0
    case Some(w) => o.InWrite(start + Accepted(h), w.addr, w.data)
  }

  lemma {:induction false} Snoc(moving: bool, h: seq<Event>, e: Event)
    ensures Accepted(h + [e]) ==
      Accepted(h) + if e.call.Write? && 0 < e.ret <= |e.call.data| then e.call.data[..e.ret] else []
    ensures Messages(h + [e]) == Messages(h) + if e.call.Message? then e.call.msg else []
    ensures Refusals(h + [e]) == Refusals(h) + if e.cause.Refused? then 1 else 0
    ensures NoneTurnedDown(h + [e]) <==> NoneTurnedDown(h) && !e.cause.TurnedDown?
    ensures Unfinished(h + [e]) ==
      if !e.call.Write? then Unfinished(h) else if e.ret > 0 || e.call.data == [] then None else Some(e.call)
    ensures Disciplined(moving, h + [e]) <==>
      && Disciplined(moving, h)
      && (e.call.Write? && Unfinished(h).Some? ==> TriesAgain(moving, Unfinished(h).value, e.call))
  {
    assert (h + [e])[..|h|] == h;
  }

  /** Before a write that the rules allow, the state is one in which this very write is under way. */
  lemma IsUnderWay(o: Output, start: seq<byte>, h: seq<Event>, call: Call)
    requires InStep(o, start, h) && call.Write?
    requires Unfinished(h).Some? ==> TriesAgain(o.movingBuffer, Unfinished(h).value, call)
    ensures o.InWrite(start + Accepted(h), call.addr, call.data)
  {
    if Unfinished(h).Some? {
      var w := Unfinished(h).value;
      assert forall n | 0 <= n <= |w.data| :: w.data[..n] == call.data[..n];
    } else {
      assert start + Accepted(h) + call.data[..0] == start + Accepted(h);
    }
  }

  /** The next record of a write is a new one, and is empty or does not fit behind the unsent flight. */
  ghost predicate NoRecord(o: Output, data: seq<byte>)
    requires o.Valid()
    reads o, o.buffer
  {
    && !o.pending && o.wnum <= |data|
    && (o.wnum == |data| || o.Chunk(|data| - o.wnum) + o.sealer.overhead + |o.Unsent()| > MAX_BUFFER)
  }

  /** A write that is under way is tried, whatever the flight does meanwhile, as long as there is a record
      for it. */
  lemma IsTried(o: Output, start: seq<byte>, addr: nat, data: seq<byte>)
    requires o.Valid() && o.InWrite(start, addr, data) && !o.Busy()
    ensures o.Denied(APPLICATION_DATA, addr + o.wnum, o.Chunk(|data| - o.wnum)) <==> NoRecord(o, data)
  {
  }

  /** What one write comes to, and why. `start` is the application data when it was first tried. */
  method TryWrite(o: Output, call: Call, ghost start: seq<byte>) returns (ghost e: Event)
    requires o.Valid() && o.Conserved() && call.Write?
    modifies o, o.buffer, o.buffer.buf
    ensures o.Valid() && o.Conserved() && o.handshake == old(o.handshake)
    ensures o.buffer.buf == old(o.buffer.buf) || o.buffer.buf == null || fresh(o.buffer.buf)
    ensures e.call == call && (e.cause.Through? <==> e.ret > 0) && e.ret <= |call.data|
    ensures o.refusals == old(o.refusals) + if e.cause.Refused? then 1 else 0
    ensures old(o.seals) <= o.seals && (e.cause.SealFailed? ==> SealFails(o.sealer, old(o.seals), o.seals))
    ensures (o.astray && !old(o.astray)) || (o.Busy() && !old(o.Busy())) ==> e.cause.SealFailed?
    ensures old(o.InWrite(start, call.addr, call.data)) ==>
      if e.ret > 0 then o.plain == start + call.data[..e.ret] && o.wnum == 0 && !o.pending
      else o.InWrite(start, call.addr, call.data)
    ensures e.cause.NoRoom? ==> NoRecord(o, call.data)
    ensures old(o.InWrite(start, call.addr, call.data)) && e.cause.TurnedDown? ==> old(o.Busy())
  {
    hide NoRecord, Output.Denied, Output.Valid, Output.Shape, Output.Conserved;
    ghost var honest, refusals := o.InWrite(start, call.addr, call.data), o.refusals;
    var ret;
    ghost var failed;
    ret, failed := o.WriteAppData(start, call.addr, call.data);
    e := Event(call, ret,
      if ret > 0 then Through
      else if failed then SealFailed
      else if o.refusals > refusals then Refused
      else if NoRecord(o, call.data) then NoRoom
      else TurnedDown);
    if honest && ret <= 0 && !failed && !old(o.Busy()) {
      IsTried(o, start, call.addr, call.data);
    }
  }

  /** One write of a run. */
  method WriteStep(o: Output, call: Call, ghost start: seq<byte>, ghost h: seq<Event>) returns (ghost e: Event)
    requires o.Valid() && o.Conserved() && call.Write?
    modifies o, o.buffer, o.buffer.buf
    ensures o.Valid() && o.Conserved() && o.handshake == old(o.handshake)
    ensures o.buffer.buf == old(o.buffer.buf) || o.buffer.buf == null || fresh(o.buffer.buf)
    ensures e.call == call && (e.cause.Through? <==> e.ret > 0)
    ensures o.refusals == old(o.refusals) + if e.cause.Refused? then 1 else 0
    ensures old(o.seals) <= o.seals && (e.cause.SealFailed? ==> SealFails(o.sealer, old(o.seals), o.seals))
    ensures (o.astray && !old(o.astray)) || (o.Busy() && !old(o.Busy())) ==> e.cause.SealFailed?
    ensures old(InStep(o, start, h)) && Disciplined(o.movingBuffer, h + [e]) ==>
      && InStep(o, start, h + [e])
      && (e.cause.TurnedDown? ==> old(o.Busy()))
  {
    hide Disciplined, Accepted, NoRecord, SealFails, Output.Valid, Output.Shape, Output.Conserved;
    ghost var honest := InStep(o, start, h) &&
      (Unfinished(h).Some? ==> TriesAgain(o.movingBuffer, Unfinished(h).value, call));
    if honest {
      IsUnderWay(o, start, h, call);
    }
    e := TryWrite(o, call, start + Accepted(h));
    Snoc(o.movingBuffer, h, e);
    Behind(start, Accepted(h), if e.ret > 0 then call.data[..e.ret] else []);
    assert start + Accepted(h) + [] == start + Accepted(h);
    if honest && call.data == [] {
      NoneUnderWay(o, start + Accepted(h), call.addr);
    }
  }

  lemma NoneUnderWay(o: Output, start: seq<byte>, addr: nat)
    requires o.Valid() && o.InWrite(start, addr, [])
    ensures !o.pending && o.wnum == 0 && o.plain == start
  {
  }

  /** What one flush comes to, or one message or ChangeCipherSpec that is added to the flight. */
  method TryFlight(o: Output, call: Call) returns (ghost e: Event)
    requires o.Valid() && o.Conserved() && !call.Write? && (call.Flush? || o.flightOffset == 0)
    modifies o`hasFlight, o`flight, o`flightOffset, o`transport, o`refusals, o`seals, o`sealed, o`plain,
      o`handshake, o.buffer
    ensures o.Valid() && o.Conserved() && o.plain == old(o.plain)
    ensures o.buffer.buf == old(o.buffer.buf) || o.buffer.buf == null
    ensures e.call == call && (e.cause.Through? <==> e.ret > 0)
    ensures e.cause in if call.Flush? then {Through, Refused} else {Through, SealFailed}
    ensures o.refusals == old(o.refusals) + if e.cause.Refused? then 1 else 0
    ensures old(o.seals) <= o.seals && (e.cause.SealFailed? ==> SealFails(o.sealer, old(o.seals), o.seals))
    ensures e.cause.Through? && call.Flush? ==> !o.hasFlight
    ensures e.cause.Through? ==> o.handshake == old(o.handshake) + if call.Message? then call.msg else []
    ensures !call.Message? ==> o.handshake == old(o.handshake)
  {
    hide Output.Conserved, Output.Shape, Output.Valid, Joined;
    match call {
      case Flush =>
        var ret := o.FlushFlight();
        e := Event(call, ret, if ret > 0 then Through else Refused);
      case Message(msg) =>
        var ok;
        ghost var cuts;
        ok, cuts := o.AddMessage(msg);
        e := Event(call, if ok then 1 else 0, if ok then Through else SealFailed);
      case ChangeCipherSpec =>
        var ok := o.AddChangeCipherSpec();
        e := Event(call, if ok then 1 else 0, if ok then Through else SealFailed);
    }
    assert o.handshake + [] == o.handshake;
  }

  /** Any calls one after another, up to one that would add to a flight that is partly sent, which the
      source asserts never happens. Every sealed byte is sent, in the write buffer or in the flight, in
      sealing order, unless a seal has failed. If interrupted writes are tried again as asked, the application
      data is what the writes have reported and a first part of the one under way, and the handshake data
      is the messages added. */
  method Session(o: Output, calls: seq<Call>) returns (ghost h: seq<Event>)
    requires o.Valid() && o.Conserved() && !o.pending && o.wnum == 0
    modifies o, o.buffer, o.buffer.buf
    ensures |h| <= |calls| && forall i | 0 <= i < |h| :: h[i].call == calls[i]
    ensures |h| < |calls| ==> !calls[|h|].Write? && !calls[|h|].Flush? && o.flightOffset > 0
    ensures o.Valid() && o.Conserved()
    ensures o.astray ==> old(o.astray) || SealFails(o.sealer, old(o.seals), o.seals)
    ensures Disciplined(o.movingBuffer, h) ==> InStep(o, old(o.plain), h)
    ensures o.handshake == old(o.handshake) + Messages(h) || SealFails(o.sealer, old(o.seals), o.seals)
    ensures o.refusals == old(o.refusals) + Refusals(h)
    ensures Disciplined(o.movingBuffer, h) && !old(o.Busy()) ==>
      NoneTurnedDown(h) || SealFails(o.sealer, old(o.seals), o.seals)
    ensures !o.astray && !o.pending && !o.hasFlight ==> o.transport == o.sealed
  {
    hide Disciplined, Accepted, Messages, Refusals, Unfinished, InStep, SealFails, NoneTurnedDown;
    hide Output.Conserved, Output.Valid;
    h := [];
    Nothing(o, h);
    var i := 0;
    while i < |calls| && (calls[i].Write? || calls[i].Flush? || o.flightOffset == 0)
      invariant |h| == i <= |calls| && forall j | 0 <= j < i :: h[j].call == calls[j]
      invariant o.Valid() && o.Conserved() && old(o.seals) <= o.seals
      invariant o.buffer.buf == old(o.buffer.buf) || o.buffer.buf == null || fresh(o.buffer.buf)
      invariant o.astray ==> old(o.astray) || SealFails(o.sealer, old(o.seals), o.seals)
      invariant Disciplined(o.movingBuffer, h) ==> InStep(o, old(o.plain), h)
      invariant o.handshake == old(o.handshake) + Messages(h) || SealFails(o.sealer, old(o.seals), o.seals)
      invariant o.refusals == old(o.refusals) + Refusals(h)
      invariant o.Busy() ==> old(o.Busy()) || SealFails(o.sealer, old(o.seals), o.seals)
      invariant Disciplined(o.movingBuffer, h) && !old(o.Busy()) ==>
        NoneTurnedDown(h) || SealFails(o.sealer, old(o.seals), o.seals)
    {
      ghost var e: Event;
      ghost var handshake, seals := o.handshake, o.seals;
      if calls[i].Write? {
        e := WriteStep(o, calls[i], old(o.plain), h);
      } else {
        e := TryFlight(o, calls[i]);
        StaysInStep(o, old(o.plain), h, e);
      }
      Snoc(o.movingBuffer, h, e);
      FailsMore(o.sealer, old(o.seals), seals, o.seals);
      Behind(old(o.handshake), Messages(h), if e.call.Message? then e.call.msg else []);
      assert handshake + [] == handshake;
      h := h + [e];
      i := i + 1;
    }
    NothingLeft(o);
  }

  /** Calls that do not write leave the writes of the run where they were. */
  lemma StaysInStep(o: Output, start: seq<byte>, h: seq<Event>, e: Event)
    requires !e.call.Write?
    ensures InStep(o, start, h + [e]) <==> InStep(o, start, h)
  {
    Snoc(o.movingBuffer, h, e);
  }

  lemma NothingLeft(o: Output)
    requires o.Valid() && o.Conserved()
    ensures !o.astray && !o.pending && !o.hasFlight ==> o.transport == o.sealed
  {
  }

  lemma FailsMore(sealer: Sealer, from: nat, mid: nat, to: nat)
    requires from <= mid <= to
    ensures SealFails(sealer, from, mid) || SealFails(sealer, mid, to) ==> SealFails(sealer, from, to)
  {
  }

  lemma Nothing(o: Output, h: seq<Event>)
    requires h == [] && !o.pending && o.wnum == 0
    ensures InStep(o, o.plain, h) && Refusals(h) == 0 && NoneTurnedDown(h) && o.handshake + Messages(h) == o.handshake
  {
    assert o.plain + [] == o.plain;
  }
}
