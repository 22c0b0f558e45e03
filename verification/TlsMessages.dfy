/** Handshake messages over a byte stream that records cut anywhere
    (BoringSSL/ssl/s3_both.cc:167-205, 337-351, 504-543, 580-601). */
module TlsMessages {
  import opened Wrappers

  datatype Message = Message(kind: byte, body: seq<byte>)

  function Header(m: Message): seq<byte>
    requires |m.body| < 0x100_0000
  {
    [m.kind, |m.body| / 0x1_0000, |m.body| / 0x100 % 0x100, |m.body| % 0x100]
  }

  function Framed(m: Message): seq<byte>
    requires |m.body| < 0x100_0000
  {
    Header(m) + m.body
  }

  predicate Sendable(ms: seq<Message>) {
    forall i :: 0 <= i < |ms| ==> |ms[i].body| < 0x100_0000
  }

  function Stream(ms: seq<Message>): seq<byte>
    requires Sendable(ms)
  {
    if ms == [] then [] else Framed(ms[0]) + Stream(ms[1..])
  }

  datatype Parsed = Complete(m: Message, length: nat) | Needs(bytes: nat)

  /** `parse_message`: the first message of the buffer, or how long the buffer must get. */
  function Parse(buffer: seq<byte>): (p: Parsed)
    ensures p.Complete? ==> 4 <= p.length <= |buffer|
    ensures p.Needs? ==> |buffer| < p.bytes
  {
    if |buffer| < 4 then Needs(4)
    else
      var len := (buffer[1] as nat) * 0x1_0000 + (buffer[2] as nat) * 0x100 + (buffer[3] as nat);
      if |buffer| - 4 < len then Needs(4 + len)
      else Complete(Message(buffer[0], buffer[4..4 + len]), 4 + len)
  }

  /** Any first part of a stream parses to its first message or asks for no more than it. */
  lemma ParseOfStream(m: Message, rest: seq<byte>, n: nat)
    requires |m.body| < 0x100_0000 && n <= |Framed(m) + rest|
    ensures var p := Parse((Framed(m) + rest)[..n]);
      if n >= |Framed(m)| then p == Complete(m, |Framed(m)|) else p.Needs? && p.bytes <= |Framed(m)|
  {
    var all := Framed(m) + rest;
    assert all[0] == m.kind && all[1] == |m.body| / 0x1_0000 && all[2] == |m.body| / 0x100 % 0x100 &&
      all[3] == |m.body| % 0x100;
    if n >= |Framed(m)| {
      assert all[..n][4..4 + |m.body|] == m.body;
    }
  }

  /** The receiving side: `init_buf`, and the messages taken from it. */
  class MessageReader {
    var initBuf: seq<byte>

    constructor ()
      ensures initBuf == []
    {
      initBuf := [];
    }

    /** `extend_handshake_buffer`: reads records until the buffer is long enough; each read gives
        some part of a record. `taken` is how much of the input it used. */
    method Extend(length: nat, input: seq<byte>) returns (ok: bool, taken: nat)
      modifies this
      ensures taken <= |input| && initBuf == old(initBuf) + input[..taken]
      ensures |old(initBuf)| <= length ==> |initBuf| <= length
      ensures ok ==> |initBuf| >= length
    {
      taken := 0;
      while |initBuf| < length
        invariant taken <= |input| && initBuf == old(initBuf) + input[..taken]
        invariant |old(initBuf)| <= length ==> |initBuf| <= length
        decreases length - |initBuf|
      {
        var got: int := *;
        if got <= 0 || taken + got > |input| || got > length - |initBuf| {
          return false, taken;
        }
        assert input[..taken] + input[taken..taken + got] == input[..taken + got];
        initBuf := initBuf + input[taken..taken + got];
        taken := taken + got;
      }
      ok := true;
    }

    /** `ssl3_get_message` and `ssl3_next_message`: shifts the rest to the front. */
    method Take() returns (m: Option<Message>)
      modifies this
      ensures match Parse(old(initBuf))
        case Complete(x, n) => m == Some(x) && initBuf == old(initBuf)[n..]
        case Needs(_) => m == None && initBuf == old(initBuf)
    {
      var p := Parse(initBuf);
      if p.Needs? {
        return None;
      }
      initBuf := initBuf[p.length..];
      return Some(p.m);
    }
  }

  // ----- Every way to cut the stream ---------------------------------------------------

  lemma ParseExtend(b: seq<byte>, c: seq<byte>)
    requires Parse(b).Complete?
    ensures Parse(b + c) == Parse(b) && (b + c)[Parse(b).length..] == b[Parse(b).length..] + c
  {
    var n := Parse(b).length;
    assert (b + c)[4..n] == b[4..n];
  }

  /** All the messages at the front of a buffer, and what is left behind them. */
  function TakeAll(b: seq<byte>): (r: (seq<Message>, seq<byte>))
    ensures Parse(r.1).Needs?
    decreases |b|
  {
    match Parse(b)
    case Needs(_) => ([], b)
    case Complete(m, n) => var rest := TakeAll(b[n..]); ([m] + rest.0, rest.1)
  }

  lemma {:induction false} TakeAllExtend(b: seq<byte>, c: seq<byte>)
    ensures var first := TakeAll(b);
      var rest := TakeAll(first.1 + c);
      TakeAll(b + c) == (first.0 + rest.0, rest.1)
    decreases |b|
  {
    var p := Parse(b);
    if p.Complete? {
      ParseExtend(b, c);
      TakeAllExtend(b[p.length..], c);
      var first := TakeAll(b[p.length..]);
      var rest := TakeAll(first.1 + c);
      assert [p.m] + (first.0 + rest.0) == [p.m] + first.0 + rest.0;
    } else {
      var rest := TakeAll(b + c);
      assert [] + rest.0 == rest.0;
    }
  }

  /** Bytes of a record arrive, or the handshake asks for a message. */
  datatype Event = Arrives(bytes: seq<byte>) | Takes

  datatype Receiver = Receiver(initBuf: seq<byte>, taken: seq<Message>) {
    function Step(e: Event): Receiver {
      match e
      case Arrives(bytes) => this.(initBuf := initBuf + bytes)
      case Takes =>
        match Parse(initBuf)
        case Needs(_) => this
        case Complete(m, n) => Receiver(initBuf[n..], taken + [m])
    }

    function Run(events: seq<Event>): Receiver
      decreases |events|
    {
      if events == [] then this else Step(events[0]).Run(events[1..])
    }
  }

  function Arrived(events: seq<Event>): seq<byte> {
    if events == [] then []
    else (if events[0].Arrives? then events[0].bytes else []) + Arrived(events[1..])
  }

  /** What has been taken and what can be taken is what the bytes so far hold. */
  predicate Faithful(r: Receiver, input: seq<byte>) {
    TakeAll(input) == (r.taken + TakeAll(r.initBuf).0, TakeAll(r.initBuf).1)
  }

  lemma MoreFaithful(r: Receiver, input: seq<byte>, more: seq<byte>)
    requires Faithful(r, input)
    ensures Faithful(r.(initBuf := r.initBuf + more), input + more)
  {
    hide Parse, TakeAll;
    TakeAllExtend(input, more);
    TakeAllExtend(r.initBuf, more);
    var first := TakeAll(r.initBuf);
    var rest := TakeAll(first.1 + more);
    assert r.taken + first.0 + rest.0 == r.taken + (first.0 + rest.0);
  }

  lemma StepFaithful(r: Receiver, input: seq<byte>, e: Event)
    requires Faithful(r, input)
    ensures Faithful(r.Step(e), input + if e.Arrives? then e.bytes else [])
  {
    hide Parse;
    if e.Arrives? {
      MoreFaithful(r, input, e.bytes);
    } else {
      assert input + [] == input;
      if Parse(r.initBuf).Complete? {
        var m := Parse(r.initBuf).m;
        var rest := TakeAll(r.initBuf[Parse(r.initBuf).length..]);
        assert r.taken + ([m] + rest.0) == r.taken + [m] + rest.0;
      }
    }
  }

  lemma {:induction false} RunFaithful(r: Receiver, input: seq<byte>, events: seq<Event>)
    requires Faithful(r, input)
    ensures Faithful(r.Run(events), input + Arrived(events))
    decreases |events|
  {
    hide Faithful, Receiver.Step;
    if events == [] {
      assert input + [] == input;
    } else {
      var now := if events[0].Arrives? then events[0].bytes else [];
      StepFaithful(r, input, events[0]);
      RunFaithful(r.Step(events[0]), input + now, events[1..]);
      assert input + (now + Arrived(events[1..])) == input + now + Arrived(events[1..]);
    }
  }

  /** A first part of a stream of messages holds the first of them, and all of it all. */
  lemma {:induction false} StreamHolds(ms: seq<Message>, n: nat)
    requires Sendable(ms) && n <= |Stream(ms)|
    ensures TakeAll(Stream(ms)[..n]).0 <= ms
    ensures n == |Stream(ms)| ==> TakeAll(Stream(ms)[..n]) == (ms, [])
    decreases |ms|
  {
    if ms != [] {
      var first, rest := Framed(ms[0]), Stream(ms[1..]);
      ParseOfStream(ms[0], rest, n);
      if n >= |first| {
        assert Stream(ms)[..n][|first|..] == rest[..n - |first|];
        StreamHolds(ms[1..], n - |first|);
        assert ms == [ms[0]] + ms[1..];
      }
    }
  }

  /** However the stream of some messages is cut into records, and whenever messages are asked for:
      those taken are the first ones of those sent, and once the whole stream has arrived and no
      complete message is left in the buffer, all of them. */
  lemma TakenAreSent(ms: seq<Message>, events: seq<Event>)
    requires Sendable(ms) && Arrived(events) <= Stream(ms)
    ensures var r := Receiver([], []).Run(events);
      && r.taken <= ms
      && (Arrived(events) == Stream(ms) && Parse(r.initBuf).Needs? ==> r.taken == ms && r.initBuf == [])
  {
    hide Receiver.Run;
    var start := Receiver([], []);
    RunFaithful(start, [], events);
    var input := Arrived(events);
    assert [] + input == input && Stream(ms)[..|input|] == input;
    StreamHolds(ms, |input|);
    var r := start.Run(events);
    assert r.taken + [] == r.taken;
  }

  // ----- What the sending side adds ------------------------------------------------------

  lemma {:induction false} StreamSplit(ms: seq<Message>, k: nat)
    requires Sendable(ms) && k <= |ms|
    ensures Stream(ms) == Stream(ms[..k]) + Stream(ms[k..])
    decreases k
  {
    if k == 0 {
      assert ms[..0] == [] && ms[0..] == ms;
    } else {
      StreamSplit(ms[1..], k - 1);
      assert ms[..k][1..] == ms[1..][..k - 1] && ms[1..][k - 1..] == ms[k..];
      assert Framed(ms[0]) + (Stream(ms[1..][..k - 1]) + Stream(ms[k..])) ==
        Framed(ms[0]) + Stream(ms[1..][..k - 1]) + Stream(ms[k..]);
    }
  }

  /** One more message that is sent is one more message of the stream. */
  lemma StreamGrows(ms: seq<Message>, m: Message)
    requires Sendable(ms) && |m.body| < 0x100_0000
    ensures Sendable(ms + [m]) && Stream(ms + [m]) == Stream(ms) + Framed(m)
  {
    StreamSplit(ms + [m], |ms|);
    assert (ms + [m])[..|ms|] == ms && (ms + [m])[|ms|..] == [m];
    assert Stream([m]) == Framed(m) + [];
  }
}
