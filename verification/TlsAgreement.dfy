/** A client and a server that negotiated the same parameters, joined by two reliable channels
    (section 7.3 of RFC 5246; BoringSSL/ssl/handshake.cc:423-545). */
module TlsAgreement {
  import opened TlsSteps
  import opened TlsScript
  import opened TlsLocal
  import C = TlsClientKeeps
  import S = TlsServerKeeps

  /** Two machines, and what travels each way. */
  datatype Net = Net(client: Party, server: Party, toServer: seq<Item>, toClient: seq<Item>)

  const START := Net(CLIENT_START, SERVER_START, [], [])

  /** One turn of one side; which side and whether something stalls is anybody's choice. */
  datatype Event = Event(server: bool, stall: bool)

  function Step(cfg: Config, net: Net, e: Event): Net {
    if e.server then
      var t := Turn(cfg, net.server, net.toServer, e.stall);
      net.(server := t.p, toServer := t.input, toClient := net.toClient + t.sent)
    else
      var t := Turn(cfg, net.client, net.toClient, e.stall);
      net.(client := t.p, toClient := t.input, toServer := net.toServer + t.sent)
  }

  function Run(cfg: Config, net: Net, events: seq<Event>): Net
    decreases |events|
  {
    if events == [] then net else Run(cfg, Step(cfg, net, events[0]), events[1..])
  }

  // ----- The invariant ------------------------------------------------------------

  function Current(p: Party): seq<Item> {
    if p.inbox.Some? then [Hs(p.inbox.value)] else []
  }

  /** One direction: what `to` has not consumed and `from` has produced, in order, is exactly
      what the places between them say. */
  predicate Between(cfg: Config, to: Party, channel: seq<Item>, from: Party)
    requires PlaceOf(cfg, to) <= Length(cfg) && PlaceOf(cfg, from) <= Length(cfg)
  {
    && Current(to) + channel + from.flight == Items(cfg, PlaceOf(cfg, to), PlaceOf(cfg, from))
    && Owned(cfg, PlaceOf(cfg, to), PlaceOf(cfg, from), IsServer(from))
  }

  predicate Inv(cfg: Config, net: Net) {
    && net.client.state.Client? && net.server.state.Server?
    && PartyOk(cfg, net.client) && PartyOk(cfg, net.server)
    && Between(cfg, net.client, net.toClient, net.server)
    && Between(cfg, net.server, net.toServer, net.client)
  }

  lemma StartInv(cfg: Config)
    ensures Inv(cfg, START)
  {
  }

  /** The first item under way to a side is the next one in the order, and comes from the other. */
  lemma HeadIsNext(cfg: Config, to: Party, channel: seq<Item>, from: Party)
    requires PartyOk(cfg, to) && PlaceOf(cfg, from) <= Length(cfg) && Between(cfg, to, channel, from)
    requires IsServer(to) != IsServer(from)
    requires Current(to) + channel + from.flight != []
    ensures var n := Next(cfg, PlaceOf(cfg, to));
      && n < PlaceOf(cfg, from)
      && At(cfg, n).fromServer != IsServer(to)
      && ItemsAt(cfg, n) == [(Current(to) + channel + from.flight)[0]]
  {
    hide At, Items, PartyOk, ItemsAt;
    ItemsHead(cfg, PlaceOf(cfg, to), PlaceOf(cfg, from));
  }

  lemma CurrentIsExpected(cfg: Config, to: Party, channel: seq<Item>, from: Party)
    requires PartyOk(cfg, to) && PlaceOf(cfg, from) <= Length(cfg) && Between(cfg, to, channel, from)
    requires IsServer(to) != IsServer(from)
    ensures Expected(cfg, to)
  {
    hide At, Items, PartyOk, Between, PlaceOf;
    if to.inbox.Some? {
      HeadIsNext(cfg, to, channel, from);
      assert (Current(to) + channel + from.flight)[0] == Hs(to.inbox.value);
    }
  }

  /** A side moves from place `k` to `n` over places of its own, with the other at `j`. */
  lemma OwnPlaces(cfg: Config, k: nat, n: nat, j: nat, server: bool)
    requires k <= n <= Length(cfg) && j <= Length(cfg)
    requires Owned(cfg, k, n, server) && Owned(cfg, k, j, !server) && Owned(cfg, j, k, server)
    ensures Items(cfg, n, j) == Items(cfg, k, j) && Owned(cfg, n, j, !server)
    ensures Items(cfg, j, n) == Items(cfg, j, k) + Items(cfg, k, n) && Owned(cfg, j, n, server)
  {
    hide At, ItemsAt, Items;
    ItemsEmpty(cfg, k, j);
    ItemsEmpty(cfg, j, k);
    ItemsEmpty(cfg, n, j);
    ItemsEmpty(cfg, j, n);
    if j <= k {
      ItemsSplit(cfg, j, k, n);
    } else if n <= j {
      ItemsNothing(cfg, k, n);
      ItemsSplit(cfg, k, n, j);
    } else {
      ItemsNothing(cfg, k, j);
      ItemsSplit(cfg, k, j, n);
    }
  }

  /** A side that adds the items of its own places to its flight. */
  lemma SendKeepsBoth(cfg: Config, p: Party, q: Party, channelTo: seq<Item>, channelFrom: seq<Item>, peer: Party)
    requires PlaceOf(cfg, p) <= PlaceOf(cfg, q) <= Length(cfg) && PlaceOf(cfg, peer) <= Length(cfg)
    requires IsServer(p) == IsServer(q) != IsServer(peer)
    requires q.inbox == p.inbox && q.flight == p.flight + Items(cfg, PlaceOf(cfg, p), PlaceOf(cfg, q))
    requires Owned(cfg, PlaceOf(cfg, p), PlaceOf(cfg, q), IsServer(p))
    requires Between(cfg, p, channelTo, peer) && Between(cfg, peer, channelFrom, p)
    ensures Between(cfg, q, channelTo, peer) && Between(cfg, peer, channelFrom, q)
  {
    hide At, ItemsAt, Items, PlaceOf, Next, Owned;
    var k, n, j := PlaceOf(cfg, p), PlaceOf(cfg, q), PlaceOf(cfg, peer);
    OwnPlaces(cfg, k, n, j, IsServer(p));
    var had := Current(peer) + channelFrom;
    assert had + (p.flight + Items(cfg, k, n)) == had + p.flight + Items(cfg, k, n);
  }

  /** A side that moves keeps both directions right. */
  lemma MoveKeepsBoth(cfg: Config, p: Party, q: Party, channelTo: seq<Item>, channelFrom: seq<Item>, peer: Party)
    requires PlaceOf(cfg, p) <= Length(cfg) && PlaceOf(cfg, peer) <= Length(cfg)
    requires IsServer(p) != IsServer(peer) && Moves(cfg, p, q)
    requires Between(cfg, p, channelTo, peer) && Between(cfg, peer, channelFrom, p)
    ensures Between(cfg, q, channelTo, peer) && Between(cfg, peer, channelFrom, q)
  {
    hide At, ItemsAt, Items, PlaceOf, Next;
    var k, n, j := PlaceOf(cfg, p), PlaceOf(cfg, q), PlaceOf(cfg, peer);
    if q.inbox == p.inbox && q.flight == p.flight + Items(cfg, k, n) && Owned(cfg, k, n, IsServer(p)) {
      SendKeepsBoth(cfg, p, q, channelTo, channelFrom, peer);
    } else {
      ItemsEmpty(cfg, j, k);
      TakeOne(cfg, p, q, channelTo, peer);
    }
  }

  lemma ItemsEmpty(cfg: Config, a: nat, b: nat)
    requires b <= Length(cfg)
    ensures a >= b ==> Items(cfg, a, b) == []
  {
  }

  /** The case in which the current message is consumed. */
  lemma TakeOne(cfg: Config, p: Party, q: Party, channelTo: seq<Item>, peer: Party)
    requires PlaceOf(cfg, p) <= PlaceOf(cfg, q) <= Length(cfg) && PlaceOf(cfg, peer) <= Length(cfg)
    requires p.inbox.Some? && q.inbox.None?
    requires Items(cfg, PlaceOf(cfg, p), PlaceOf(cfg, q)) == [Hs(p.inbox.value)]
    requires Between(cfg, p, channelTo, peer)
    ensures Between(cfg, q, channelTo, peer)
    ensures Items(cfg, PlaceOf(cfg, peer), PlaceOf(cfg, q)) == [] && PlaceOf(cfg, p) < PlaceOf(cfg, peer)
    ensures forall i :: PlaceOf(cfg, peer) <= i < PlaceOf(cfg, q) ==> At(cfg, i).what.Absent?
  {
    hide At, ItemsAt, PlaceOf, Next;
    var k, n, j := PlaceOf(cfg, p), PlaceOf(cfg, q), PlaceOf(cfg, peer);
    var all := Current(p) + channelTo + peer.flight;
    assert all[0] == Hs(p.inbox.value) && all[1..] == Current(q) + channelTo + peer.flight;
    ItemsEmpty(cfg, j, n);
    if n <= j {
      ItemsSplit(cfg, k, n, j);
    } else {
      ItemsSplit(cfg, k, j, n);
      assert Items(cfg, j, n) == [];
      ItemsHead(cfg, j, n);
    }
  }

  // ----- One turn -------------------------------------------------------------------

  lemma DoKeeps(cfg: Config, p: Party, stall: bool)
    requires Ready(cfg, p) && !p.IsDone()
    ensures Kept(cfg, p, Do(cfg, p, stall))
  {
    hide Ready, Kept, DoClient, DoServer;
    if p.state.Client? {
      C.ClientKeeps(cfg, p, stall);
    } else {
      S.ServerKeeps(cfg, p, stall);
    }
  }

  /** A side that settles its wait stays where it is in the order. */
  lemma SamePlace(cfg: Config, p: Party, q: Party)
    requires PartyOk(cfg, p) && q == p.(wait := q.wait, inbox := q.inbox, flight := q.flight)
    requires p.wait in {Async, Flush, ReadMessage} && q.wait in {Ok, p.wait}
    requires q.wait == ReadMessage ==> q.inbox == p.inbox && q.flight == p.flight
    requires q.inbox.Some? ==> q.wait == Ok || q.inbox == p.inbox
    requires q.flight in {[], p.flight} && (p.wait == Flush && q.wait == Ok ==> q.flight == [])
    ensures PartyOk(cfg, q) && PlaceOf(cfg, q) == PlaceOf(cfg, p)
  {
    hide Transcript, Next, At;
  }

  /** A flush, or a callback that is called again. */
  lemma FlushKeeps(cfg: Config, p: Party, channelTo: seq<Item>, channelFrom: seq<Item>, peer: Party, stall: bool)
    requires PartyOk(cfg, p) && PlaceOf(cfg, peer) <= Length(cfg) && IsServer(p) != IsServer(peer)
    requires Between(cfg, p, channelTo, peer) && Between(cfg, peer, channelFrom, p)
    requires p.wait in {Async, Flush}
    ensures var t := Turn(cfg, p, channelTo, stall);
      && PartyOk(cfg, t.p) && IsServer(t.p) == IsServer(p)
      && Between(cfg, t.p, t.input, peer) && Between(cfg, peer, channelFrom + t.sent, t.p)
  {
    hide Items, Next, Do, ItemsAt, At, Owned, PartyOk, PlaceOf;
    assert channelFrom + [] == channelFrom;
    WaitFacts(cfg, p);
    SamePlace(cfg, p, Turn(cfg, p, channelTo, stall).p);
    if p.wait == Flush && !stall {
      assert Current(peer) + (channelFrom + p.flight) + [] == Current(peer) + channelFrom + p.flight;
    }
  }

  /** The next message becomes the current one. */
  lemma ReadKeeps(cfg: Config, p: Party, channelTo: seq<Item>, channelFrom: seq<Item>, peer: Party, stall: bool)
    requires PartyOk(cfg, p) && PlaceOf(cfg, peer) <= Length(cfg) && IsServer(p) != IsServer(peer)
    requires Between(cfg, p, channelTo, peer) && Between(cfg, peer, channelFrom, p)
    requires p.wait == ReadMessage
    ensures var t := Turn(cfg, p, channelTo, stall);
      && PartyOk(cfg, t.p) && IsServer(t.p) == IsServer(p)
      && Between(cfg, t.p, t.input, peer) && Between(cfg, peer, channelFrom + t.sent, t.p)
  {
    hide Items, Next, Do, ItemsAt, At, Owned, PartyOk, PlaceOf;
    var t := Turn(cfg, p, channelTo, stall);
    assert channelFrom + [] == channelFrom;
    WaitFacts(cfg, p);
    if channelTo == [] || stall {
      SamePlace(cfg, p, t.p);
    } else {
      var all := Current(p) + channelTo + peer.flight;
      HeadIsNext(cfg, p, channelTo, peer);
      ItemsAtIs(cfg, Next(cfg, PlaceOf(cfg, p)));
      assert all[0] == channelTo[0];
      assert Current(t.p) + channelTo[1..] + peer.flight == all;
      SamePlace(cfg, p, t.p);
    }
  }

  lemma WaitFacts(cfg: Config, p: Party)
    requires PartyOk(cfg, p)
    ensures PlaceOf(cfg, p) <= Length(cfg)
    ensures p.wait == ReadMessage ==> p.inbox.None? && Receives(cfg, p)
    ensures p.wait == ReadMessage ==> p.flight == []
    ensures p.wait == Flush ==> p.inbox.None?
  {
  }

  lemma ItemsAtIs(cfg: Config, k: nat)
    requires k < Length(cfg)
    ensures At(cfg, k).what.Sent? ==> ItemsAt(cfg, k) == [Hs(MessageAt(cfg, k))]
    ensures At(cfg, k).what.Change? ==> ItemsAt(cfg, k) == [Ccs]
  {
  }

  /** A side that reads a ChangeCipherSpec is at its place, and behind it afterwards. */
  lemma CcsPlace(cfg: Config, p: Party)
    requires PartyOk(cfg, p) && p.wait == ReadCcs
    ensures var k := PlaceOf(cfg, p);
      && k < Length(cfg) && At(cfg, k) == Place(!IsServer(p), Change) && p.inbox.None? && p.flight == []
      && PartyOk(cfg, p.(wait := Ok)) && PlaceOf(cfg, p.(wait := Ok)) == k + 1
  {
    hide Transcript, Next, Items;
    TranscriptStep(cfg, PlaceOf(cfg, p));
  }

  lemma CcsKeeps(cfg: Config, p: Party, channelTo: seq<Item>, channelFrom: seq<Item>, peer: Party, stall: bool)
    requires PartyOk(cfg, p) && PlaceOf(cfg, peer) <= Length(cfg) && IsServer(p) != IsServer(peer)
    requires Between(cfg, p, channelTo, peer) && Between(cfg, peer, channelFrom, p)
    requires p.wait == ReadCcs
    ensures var t := Turn(cfg, p, channelTo, stall);
      && PartyOk(cfg, t.p) && IsServer(t.p) == IsServer(p)
      && Between(cfg, t.p, t.input, peer) && Between(cfg, peer, channelFrom + t.sent, t.p)
  {
    hide Items, Transcript, Next, Do, ItemsAt, At, PartyOk, PlaceOf;
    CcsPlace(cfg, p);
    var t := Turn(cfg, p, channelTo, stall);
    var k, j := PlaceOf(cfg, p), PlaceOf(cfg, peer);
    var all := Current(p) + channelTo + peer.flight;
    assert channelFrom + [] == channelFrom;
    if channelTo != [] && !stall {
      HeadIsNext(cfg, p, channelTo, peer);
      NextBefore(cfg, k, k);
      ItemsAtIs(cfg, k);
      assert all[0] == channelTo[0];
      assert Current(t.p) + channelTo[1..] + peer.flight == all[1..];
      TranscriptStep(cfg, k);
      ItemsSplit(cfg, k, k + 1, j);
      ItemsOne(cfg, k);
      ItemsEmpty(cfg, j, k);
      ItemsEmpty(cfg, j, k + 1);
    }
  }

  lemma TurnKeeps(cfg: Config, p: Party, channelTo: seq<Item>, channelFrom: seq<Item>, peer: Party, stall: bool)
    requires Honest(cfg) && PartyOk(cfg, p) && PlaceOf(cfg, peer) <= Length(cfg) && IsServer(p) != IsServer(peer)
    requires Between(cfg, p, channelTo, peer) && Between(cfg, peer, channelFrom, p)
    ensures var t := Turn(cfg, p, channelTo, stall);
      && PartyOk(cfg, t.p) && IsServer(t.p) == IsServer(p)
      && Between(cfg, t.p, t.input, peer) && Between(cfg, peer, channelFrom + t.sent, t.p)
  {
    hide Do, At, Items, Transcript, Between, OnPath, KeysOk, CertOk;
    assert channelFrom + [] == channelFrom;
    if p.wait == Ok {
      if !p.IsDone() {
        CurrentIsExpected(cfg, p, channelTo, peer);
        DoKeeps(cfg, p, stall);
        MoveKeepsBoth(cfg, p, Do(cfg, p, stall), channelTo, channelFrom, peer);
      }
    } else if p.wait == ReadCcs {
      CcsKeeps(cfg, p, channelTo, channelFrom, peer, stall);
    } else if p.wait == ReadMessage {
      ReadKeeps(cfg, p, channelTo, channelFrom, peer, stall);
    } else {
      FlushKeeps(cfg, p, channelTo, channelFrom, peer, stall);
    }
  }

  lemma StepKeeps(cfg: Config, net: Net, e: Event)
    requires Honest(cfg) && Inv(cfg, net)
    ensures Inv(cfg, Step(cfg, net, e))
  {
    hide Turn, Between, Honest;
    if e.server {
      TurnKeeps(cfg, net.server, net.toServer, net.toClient, net.client, e.stall);
    } else {
      TurnKeeps(cfg, net.client, net.toClient, net.toServer, net.server, e.stall);
    }
  }

  // ----- Every run ---------------------------------------------------------------------

  lemma {:induction false} RunKeeps(cfg: Config, net: Net, events: seq<Event>)
    requires Honest(cfg) && Inv(cfg, net)
    ensures Inv(cfg, Run(cfg, net, events))
    decreases |events|
  {
    if events != [] {
      StepKeeps(cfg, net, events[0]);
      RunKeeps(cfg, Step(cfg, net, events[0]), events[1..]);
    }
  }

  lemma {:induction false} TranscriptPrefix(cfg: Config, a: nat, b: nat)
    requires a <= b <= Length(cfg)
    ensures Transcript(cfg, a) <= Transcript(cfg, b)
    decreases b - a
  {
    hide At, MessageAt;
    if a < b {
      TranscriptPrefix(cfg, a, b - 1);
    }
  }

  lemma PartyFacts(cfg: Config, p: Party)
    requires PartyOk(cfg, p)
    ensures p.wait != Error && p.transcript <= Transcript(cfg, Length(cfg))
    ensures p.IsDone() ==>
      && PlaceOf(cfg, p) == Length(cfg) && p.transcript == Transcript(cfg, Length(cfg))
      && p.writeKeys == p.readKeys == 1 && (p.wait != Flush ==> p.flight == [])
  {
    hide Transcript, At, Next, CertOk;
    TranscriptPrefix(cfg, PlaceOf(cfg, p), Length(cfg));
  }

  /** In every run neither side meets an error; the transcripts are prefixes of one script and
      equal when both are done, with each direction's keys changed once and nothing left over. */
  lemma Agreement(cfg: Config, events: seq<Event>)
    requires Honest(cfg)
    ensures var net := Run(cfg, START, events);
      && net.client.wait != Error && net.server.wait != Error
      && net.client.transcript <= Transcript(cfg, Length(cfg))
      && net.server.transcript <= Transcript(cfg, Length(cfg))
      && (net.client.IsDone() && net.server.IsDone() ==>
            && net.client.transcript == net.server.transcript == Transcript(cfg, Length(cfg))
            && net.client.writeKeys == net.client.readKeys == net.server.writeKeys == net.server.readKeys == 1
            && net.toServer == net.toClient == [])
  {
    hide Run, Transcript, At, Items, PartyOk, PlaceOf;
    var net := Run(cfg, START, events);
    StartInv(cfg);
    RunKeeps(cfg, START, events);
    PartyFacts(cfg, net.client);
    PartyFacts(cfg, net.server);
    ItemsEmpty(cfg, Length(cfg), Length(cfg));
  }

  lemma FinishedMatches(cfg: Config, p: Party)
    requires PartyOk(cfg, p) && Expected(cfg, p) && p.inbox.Some?
    requires p.state in {Client(ReadServerFinished), Server(ReadClientFinished)}
    ensures p.inbox.value == Message(Finished, cfg.mac(p.transcript, p.state.Client?))
    ensures var k := PlaceOf(cfg, p);
      && Next(cfg, k) == k < Length(cfg) && At(cfg, k) == Place(p.state.Client?, Sent(Finished))
      && MessageAt(cfg, k) == p.inbox.value
  {
    hide Transcript, Items, KeysOk, CertOk, WaitOk, Next;
    NextBefore(cfg, PlaceOf(cfg, p), PlaceOf(cfg, p));
  }

  /** The Finished that `to` is about to check is the one that `from` has added, behind the very
      messages that `to` holds; its MAC is over them. */
  predicate SameAtFinished(cfg: Config, to: Party, from: Party) {
    to.inbox.Some? && to.state in {Client(ReadServerFinished), Server(ReadClientFinished)} ==>
      && to.inbox.value == Message(Finished, cfg.mac(to.transcript, to.state.Client?))
      && to.transcript + [to.inbox.value] <= from.transcript
  }

  lemma FinishedIsSame(cfg: Config, to: Party, channel: seq<Item>, from: Party)
    requires PartyOk(cfg, to) && PartyOk(cfg, from) && IsServer(to) != IsServer(from)
    requires PlaceOf(cfg, from) <= Length(cfg) && Between(cfg, to, channel, from)
    ensures SameAtFinished(cfg, to, from)
  {
    hide At, Items, PlaceOf, Expected, Between, OnPath, KeysOk, CertOk, WaitOk, Transcript, MessageAt;
    if to.inbox.Some? && to.state in {Client(ReadServerFinished), Server(ReadClientFinished)} {
      var k := PlaceOf(cfg, to);
      CurrentIsExpected(cfg, to, channel, from);
      FinishedMatches(cfg, to);
      HeadIsNext(cfg, to, channel, from);
      TranscriptStep(cfg, k);
      TranscriptPrefix(cfg, k + 1, PlaceOf(cfg, from));
    }
  }

  /** Whenever a side is about to check a Finished message, the transcript that the other side held
      when it added it is the transcript that this side holds, and the MAC is over it. */
  lemma EqualAtFinished(cfg: Config, events: seq<Event>)
    requires Honest(cfg)
    ensures var net := Run(cfg, START, events);
      SameAtFinished(cfg, net.client, net.server) && SameAtFinished(cfg, net.server, net.client)
  {
    hide Run, Transcript, At, Items, PartyOk, PlaceOf, Between, SameAtFinished;
    var net := Run(cfg, START, events);
    StartInv(cfg);
    RunKeeps(cfg, START, events);
    PlaceInRange(cfg, net.client);
    PlaceInRange(cfg, net.server);
    FinishedIsSame(cfg, net.client, net.toClient, net.server);
    FinishedIsSame(cfg, net.server, net.toServer, net.client);
  }

  lemma PlaceInRange(cfg: Config, p: Party)
    requires PartyOk(cfg, p)
    ensures PlaceOf(cfg, p) <= Length(cfg)
  {
  }
}
