/** Every handshake can be finished from wherever it is, and stalls do not change what a side
    does (BoringSSL/ssl/handshake.cc:423-545). */
module TlsProgress {
  import opened TlsSteps
  import opened TlsScript
  import opened TlsLocal
  import opened TlsAgreement

  // ----- Turns without stalls come to an end -------------------------------------------

  function WaitWeight(p: Party): nat {
    match p.wait
    case Error => 0
    case Ok => if p.inbox.Some? then 1 else 3
    case ReadMessage => 2
    case ReadCcs => 4
    case Flush => 4
    case Async => 5
  }

  function Left(cfg: Config, p: Party): nat {
    16 * Rank(cfg.resume, p.state) + WaitWeight(p) + |p.flight|
  }

  /** A side that only waits for input that is not there, or has nothing left to do. */
  predicate Idle(p: Party, input: seq<Item>) {
    (p.wait in {ReadMessage, ReadCcs} && input == []) || p.wait == Error || (p.wait == Ok && p.IsDone())
  }

  /** A turn without a stall does something, unless the side is idle. */
  lemma TurnUses(cfg: Config, p: Party, input: seq<Item>)
    ensures var t := Turn(cfg, p, input, false);
      if Idle(p, input) then t == Turned(p, input, []) else Left(cfg, t.p) < Left(cfg, p)
  {
    hide Do, Rank;
    if p.wait == Ok && !p.IsDone() {
      DoAdvances(cfg, p, false);
    }
  }

  lemma WaitsForPeer(cfg: Config, p: Party)
    requires PartyOk(cfg, p) && p.wait in {ReadMessage, ReadCcs}
    ensures p.inbox.None? && PlaceOf(cfg, p) <= Length(cfg)
    ensures var n := Next(cfg, PlaceOf(cfg, p)); n < Length(cfg) && At(cfg, n).fromServer != IsServer(p)
  {
    hide PartyOk, PlaceOf, At, Next;
    WaitFacts(cfg, p);
    if p.wait == ReadCcs {
      CcsPlace(cfg, p);
      NextBefore(cfg, PlaceOf(cfg, p), PlaceOf(cfg, p));
    }
  }

  lemma NextInRange(cfg: Config, p: Party, channel: seq<Item>, peer: Party)
    requires PartyOk(cfg, p) && PlaceOf(cfg, peer) <= Length(cfg) && IsServer(p) != IsServer(peer)
    requires PlaceOf(cfg, p) <= Length(cfg) && Between(cfg, p, channel, peer)
    requires p.wait in {ReadMessage, ReadCcs} && channel == [] && peer.flight == []
    ensures var n := Next(cfg, PlaceOf(cfg, p));
      && PlaceOf(cfg, peer) <= n < Length(cfg)
      && At(cfg, n).fromServer != IsServer(p)
  {
    hide Items, PartyOk, PlaceOf, At, Next;
    WaitsForPeer(cfg, p);
    assert Current(p) + channel + peer.flight == [];
    ItemsHead(cfg, PlaceOf(cfg, p), PlaceOf(cfg, peer));
  }

  /** The two sides never wait for each other. */
  lemma NoDeadlock(cfg: Config, net: Net)
    requires Inv(cfg, net) && Idle(net.client, net.toClient) && Idle(net.server, net.toServer)
    ensures net.client.IsDone() && net.server.IsDone()
  {
    hide Items, Transcript, KeysOk, CertOk, At, OnPath;
    var c, s := net.client, net.server;
    assert c.wait != Flush && s.wait != Flush;
    IdleFlight(cfg, c, net.toClient);
    IdleFlight(cfg, s, net.toServer);
    if !c.IsDone() && !s.IsDone() {
      NextInRange(cfg, c, net.toClient, s);
      NextInRange(cfg, s, net.toServer, c);
      SameNext(cfg, PlaceOf(cfg, c), PlaceOf(cfg, s));
    } else if !c.IsDone() {
      NextInRange(cfg, c, net.toClient, s);
    } else if !s.IsDone() {
      NextInRange(cfg, s, net.toServer, c);
    }
  }

  lemma IdleFlight(cfg: Config, p: Party, input: seq<Item>)
    requires PartyOk(cfg, p) && Idle(p, input)
    ensures p.flight == [] && (p.IsDone() ==> PlaceOf(cfg, p) == Length(cfg))
    ensures !p.IsDone() ==> p.wait in {ReadMessage, ReadCcs} && input == []
  {
    hide Transcript, KeysOk, CertOk, At, Next;
  }

  lemma SameNext(cfg: Config, a: nat, b: nat)
    requires a <= Length(cfg) && b <= Length(cfg)
    requires b <= Next(cfg, a) && a <= Next(cfg, b) && Next(cfg, a) < Length(cfg) && Next(cfg, b) < Length(cfg)
    ensures Next(cfg, a) == Next(cfg, b)
  {
    hide At;
  }

  /** From anywhere a handshake can be, both sides can be brought to the end; each side needs
      only turns without stalls, in any order that does not pick an idle side. */
  lemma {:induction false} CanFinish(cfg: Config, net: Net) returns (events: seq<Event>)
    requires Honest(cfg) && Inv(cfg, net)
    ensures var end := Run(cfg, net, events);
      Inv(cfg, end) && end.client.IsDone() && end.server.IsDone()
    decreases Left(cfg, net.client) + Left(cfg, net.server)
  {
    hide Inv, Turn, Idle, Left, Honest;
    if Idle(net.client, net.toClient) && Idle(net.server, net.toServer) {
      NoDeadlock(cfg, net);
      events := [];
    } else {
      var e := Event(Idle(net.client, net.toClient), false);
      StepKeeps(cfg, net, e);
      TurnUses(cfg, net.client, net.toClient);
      TurnUses(cfg, net.server, net.toServer);
      var rest := CanFinish(cfg, Step(cfg, net, e));
      events := [e] + rest;
      assert events[1..] == rest;
    }
  }

  /** Whatever happened so far, with any stalls, a handshake can still finish, and then both
      sides hold the same transcript. */
  lemma EveryRunCanFinish(cfg: Config, events: seq<Event>) returns (more: seq<Event>)
    requires Honest(cfg)
    ensures var end := Run(cfg, Run(cfg, START, events), more);
      && end.client.IsDone() && end.server.IsDone()
      && end.client.transcript == end.server.transcript == Transcript(cfg, Length(cfg))
  {
    hide Run, Inv, Transcript;
    StartInv(cfg);
    RunKeeps(cfg, START, events);
    more := CanFinish(cfg, Run(cfg, START, events));
    DoneAgree(cfg, Run(cfg, Run(cfg, START, events), more));
  }

  lemma DoneAgree(cfg: Config, net: Net)
    requires Inv(cfg, net) && net.client.IsDone() && net.server.IsDone()
    ensures net.client.transcript == net.server.transcript == Transcript(cfg, Length(cfg))
  {
    hide PartyOk, Between, Transcript;
    PartyFacts(cfg, net.client);
    PartyFacts(cfg, net.server);
  }

  // ----- Stall erasure --------------------------------------------------------------------

  /** A side with all the input it will ever get, and all it has sent. Input that has not
      arrived yet is a stall of the read that waits for it. */
  datatype Side = Side(p: Party, input: seq<Item>, sent: seq<Item>)

  function SideStep(cfg: Config, s: Side, stall: bool): Side {
    var t := Turn(cfg, s.p, s.input, stall);
    Side(t.p, t.input, s.sent + t.sent)
  }

  /** A run of one side, against whatever the input is, honest or not. */
  function SideRun(cfg: Config, s: Side, stalls: seq<bool>): Side
    decreases |stalls|
  {
    if stalls == [] then s else SideRun(cfg, SideStep(cfg, s, stalls[0]), stalls[1..])
  }

  /** The same run when nothing ever stalls. */
  function Smooth(cfg: Config, s: Side, n: nat): Side
    decreases n
  {
    if n == 0 then s else Smooth(cfg, SideStep(cfg, s, false), n - 1)
  }

  /** A callback that asked to be called again leaves everything as if it had not been called. */
  function Settled(s: Side): Side {
    if s.p.wait == Async then s.(p := s.p.(wait := Ok)) else s
  }

  /** A turn that stalls changes nothing but, perhaps, that the side now waits for a callback. */
  lemma StallIsNothing(cfg: Config, s: Side)
    requires s.p.wait != Async
    ensures Settled(SideStep(cfg, s, true)) in {s, Settled(SideStep(cfg, s, false))}
  {
    hide Advances, Do;
    assert s.sent + [] == s.sent;
    if s.p.wait == Ok && !s.p.IsDone() {
      StallOnlyWaits(cfg, s.p);
    }
  }

  lemma StallOnlyWaits(cfg: Config, p: Party)
    requires p.wait == Ok && !p.IsDone()
    ensures Do(cfg, p, true) in {p.(wait := Async), Do(cfg, p, false)}
  {
    hide Advances, Wrong, AddIf, AddFinished, FinishedOk, AsksCert, SendsSke;
  }

  lemma SettledStep(cfg: Config, s: Side, stall: bool)
    ensures Settled(SideStep(cfg, s, stall)) in {Settled(s), SideStep(cfg, Settled(s), false)}
  {
    hide Do, Advances;
    assert s.sent + [] == s.sent;
    if s.p.wait != Async {
      StallIsNothing(cfg, s);
      NeverAsync(cfg, s);
    }
  }

  lemma NeverAsync(cfg: Config, s: Side)
    requires s.p.wait != Async
    ensures SideStep(cfg, s, false).p.wait != Async
  {
    hide Advances, Do;
    if s.p.wait == Ok && !s.p.IsDone() {
      DoAdvances(cfg, s.p, false);
    }
  }

  /** Any pattern of stalls reaches only states of the run without stalls: the same messages
      sent and consumed, in the same order, with the same transcript and keys. */
  lemma {:induction false} StallErasure(cfg: Config, s: Side, stalls: seq<bool>) returns (n: nat)
    ensures n <= |stalls|
    ensures Settled(SideRun(cfg, s, stalls)) == Smooth(cfg, Settled(s), n)
    decreases |stalls|
  {
    hide SideStep, Settled;
    if stalls == [] {
      n := 0;
    } else {
      var next := SideStep(cfg, s, stalls[0]);
      var m := StallErasure(cfg, next, stalls[1..]);
      SettledStep(cfg, s, stalls[0]);
      n := if Settled(next) == Settled(s) then m else m + 1;
    }
  }
}
