/** What holds of one side in every run, whatever the other side sends
    (BoringSSL/ssl/handshake_client.cc:1382-1691, BoringSSL/ssl/handshake_server.cc:1264-1535). */
module TlsWholeRun {
  import opened TlsSteps
  import opened TlsScript
  import opened TlsProgress

  /** The side's own Finished is sent, with the change of its write keys before it. */
  predicate SentOwn(resume: bool, state: State) {
    Rank(resume, state) <= if state.Client? then 5 else if resume then 7 else 1
  }

  predicate SwitchedRead(resume: bool, state: State) {
    Rank(resume, state) <= if state.Server? then 5 else if resume then 7 else 2
  }

  /** The other side's Finished is verified. */
  predicate SeenPeer(resume: bool, state: State) {
    Rank(resume, state) <= if state.Server? then 2 else if resume then 6 else 1
  }

  /** Whose Finished messages went by, in order: the client's first in a full handshake, the
      server's first in a resumption. */
  function FinishedBy(resume: bool, state: State): seq<bool> {
    var own, peer := SentOwn(resume, state), SeenPeer(resume, state);
    (if (if state.Client? == resume then peer else own) then [resume] else []) +
    (if (if state.Client? == resume then own else peer) then [!resume] else [])
  }

  predicate Switches(cfg: Config, p: Party) {
    && p.writeKeys == (if SentOwn(cfg.resume, p.state) then 1 else 0)
    && p.readKeys == (if SwitchedRead(cfg.resume, p.state) then 1 else 0)
    && p.finished == FinishedBy(cfg.resume, p.state)
  }

  /** States between which no key changes and no Finished goes by. */
  predicate SamePhase(cfg: Config, a: State, b: State) {
    && a.Client? == b.Client?
    && SentOwn(cfg.resume, a) == SentOwn(cfg.resume, b)
    && SwitchedRead(cfg.resume, a) == SwitchedRead(cfg.resume, b)
    && SeenPeer(cfg.resume, a) == SeenPeer(cfg.resume, b)
    && (OnPath(cfg, a) ==> OnPath(cfg, b))
  }

  lemma Quiet(cfg: Config, p: Party, q: Party)
    requires Facts(cfg, p) && SamePhase(cfg, p.state, q.state) && KeepsBuffer(cfg, q)
    requires q.writeKeys == p.writeKeys && q.readKeys == p.readKeys && q.finished == p.finished
    ensures Facts(cfg, q)
  {
    hide SentOwn, SwitchedRead, SeenPeer, OnPath, KeepsBuffer;
  }

  /** While a CertificateVerify may still have to be signed or verified, the transcript is live. */
  predicate KeepsBuffer(cfg: Config, p: Party) {
    !cfg.resume ==>
      match p.state
      case Client(c) =>
        var rank := ClientRank(false, c);
        && (rank >= 16 || (rank >= 11 && cfg.certAuth) ==> p.live)
        && (rank >= 11 || !cfg.certAuth ==> !p.certRequest)
        && (rank >= 7 && p.certRequest && cfg.clientHasCert ==> p.live)
      case Server(s) =>
        var rank := ServerRank(false, s);
        && (rank >= 16 ==> p.live && !p.certRequest)
        && (rank >= 11 ==> !p.peerCert && (p.certRequest ==> p.live))
        && (rank >= 8 && p.peerCert ==> p.live)
  }

  predicate Facts(cfg: Config, p: Party) {
    OnPath(cfg, p.state) && Switches(cfg, p) && KeepsBuffer(cfg, p)
  }

  /** Verifying the other side's Finished is the one thing that changes here. */
  lemma FinishedNext(cfg: Config, p: Party)
    requires Facts(cfg, p) && p.state in {Client(ReadServerFinished), Server(ReadClientFinished)}
    ensures var next := if p.state.Client? then Client(if cfg.resume then SendClientFinished else FinishClientHandshake)
                        else Server(if cfg.resume then FinishServerHandshake else SendServerFinished);
      && OnPath(cfg, next) && SentOwn(cfg.resume, next) == SentOwn(cfg.resume, p.state)
      && SwitchedRead(cfg.resume, next) == SwitchedRead(cfg.resume, p.state)
      && SentOwn(cfg.resume, next) == (p.state.Client? != cfg.resume)
      && !SeenPeer(cfg.resume, p.state) && SeenPeer(cfg.resume, next)
  {
  }

  /** Where that state goes to, with the other Finished among those that went by; or it waits. */
  lemma FinishedFacts(cfg: Config, p: Party, q: Party)
    requires Facts(cfg, p) && p.state in {Client(ReadServerFinished), Server(ReadClientFinished)}
    requires q.state == p.state ==> q == p.(wait := q.wait)
    requires q.state != p.state ==>
      && q == p.(state := q.state, wait := q.wait, transcript := q.transcript, inbox := q.inbox, finished := q.finished)
      && q.finished == p.finished + [p.state.Client?]
      && q.state == if p.state.Client? then Client(if cfg.resume then SendClientFinished else FinishClientHandshake)
                    else Server(if cfg.resume then FinishServerHandshake else SendServerFinished)
    ensures Facts(cfg, q)
  {
    hide OnPath, SentOwn, SwitchedRead, SeenPeer;
    FinishedNext(cfg, p);
  }

  lemma TicketPhase(cfg: Config)
    ensures SamePhase(cfg, Client(ReadSessionTicket), Client(ProcessServerCcs))
    ensures SamePhase(cfg, Client(ReadSessionTicket), Client(ReadSessionTicket))
  {
  }

  lemma OptionalPhase(cfg: Config, s: ServerState, next: ServerState)
    requires (s, next) in {(ReadNextProto, ReadChannelId), (ReadChannelId, ReadClientFinished)}
    ensures SamePhase(cfg, Server(s), Server(next)) && SamePhase(cfg, Server(s), Server(s))
  {
  }

  // ----- Client -----------------------------------------------------------------------

  lemma ReadServerHelloFacts(cfg: Config, p: Party)
    requires Facts(cfg, p) && p.state == Client(ReadServerHello)
    ensures Facts(cfg, DoReadServerHello(cfg, p))
  {
    hide Advances, Wrong, Switches, AddIf;
    Quiet(cfg, p, DoReadServerHello(cfg, p));
  }

  lemma ReadServerCertificateFacts(cfg: Config, p: Party)
    requires Facts(cfg, p) && p.state == Client(ReadServerCertificate)
    ensures Facts(cfg, DoReadServerCertificate(cfg, p))
  {
    hide Advances, Wrong, Switches, AddIf;
    Quiet(cfg, p, DoReadServerCertificate(cfg, p));
  }

  lemma ReadCertificateStatusFacts(cfg: Config, p: Party)
    requires Facts(cfg, p) && p.state == Client(ReadCertificateStatus)
    ensures Facts(cfg, DoReadCertificateStatus(cfg, p))
  {
    hide Advances, Wrong, Switches, AddIf;
    Quiet(cfg, p, DoReadCertificateStatus(cfg, p));
  }

  lemma VerifyServerCertificateFacts(cfg: Config, p: Party, stall: bool)
    requires Facts(cfg, p) && p.state == Client(VerifyServerCertificate)
    ensures Facts(cfg, DoVerifyServerCertificate(cfg, p, stall))
  {
    hide Advances, Wrong, Switches, AddIf;
    Quiet(cfg, p, DoVerifyServerCertificate(cfg, p, stall));
  }

  lemma ReadServerKeyExchangeFacts(cfg: Config, p: Party)
    requires Facts(cfg, p) && p.state == Client(ReadServerKeyExchange)
    ensures Facts(cfg, DoReadServerKeyExchange(cfg, p))
  {
    hide Advances, Wrong, Switches, AddIf;
    Quiet(cfg, p, DoReadServerKeyExchange(cfg, p));
  }

  lemma ReadCertificateRequestFacts(cfg: Config, p: Party)
    requires Facts(cfg, p) && p.state == Client(ReadCertificateRequest)
    ensures Facts(cfg, DoReadCertificateRequest(cfg, p))
  {
    hide Advances, Wrong, Switches, AddIf;
    Quiet(cfg, p, DoReadCertificateRequest(cfg, p));
  }

  lemma ReadServerHelloDoneFacts(cfg: Config, p: Party)
    requires Facts(cfg, p) && p.state == Client(ReadServerHelloDone)
    ensures Facts(cfg, DoReadServerHelloDone(cfg, p))
  {
    hide Advances, Wrong, Switches, AddIf;
    Quiet(cfg, p, DoReadServerHelloDone(cfg, p));
  }

  lemma SendClientCertificateFacts(cfg: Config, p: Party, stall: bool)
    requires Facts(cfg, p) && p.state == Client(SendClientCertificate)
    ensures Facts(cfg, DoSendClientCertificate(cfg, p, stall))
  {
    hide Advances, Wrong, Switches, AddIf;
    Quiet(cfg, p, DoSendClientCertificate(cfg, p, stall));
  }

  lemma SendClientCertificateVerifyFacts(cfg: Config, p: Party, stall: bool)
    requires Facts(cfg, p) && p.state == Client(SendClientCertificateVerify)
    ensures Facts(cfg, DoSendClientCertificateVerify(cfg, p, stall))
  {
    hide Advances, Wrong, Switches, AddIf;
    Quiet(cfg, p, DoSendClientCertificateVerify(cfg, p, stall));
  }

  lemma SendClientFinishedFacts(cfg: Config, p: Party, stall: bool)
    requires Facts(cfg, p) && p.state == Client(SendClientFinished)
    ensures Facts(cfg, DoSendClientFinished(cfg, p, stall))
  {
    hide Advances, Wrong, FinishedOk;
  }

  lemma ReadSessionTicketFacts(cfg: Config, p: Party)
    requires Facts(cfg, p) && p.state == Client(ReadSessionTicket)
    ensures Facts(cfg, DoReadSessionTicket(cfg, p))
  {
    hide Advances, Wrong, Switches, AddIf, SamePhase, OnPath, Reads;
    TicketPhase(cfg);
    Quiet(cfg, p, DoReadSessionTicket(cfg, p));
  }

  lemma ReadServerFinishedFacts(cfg: Config, p: Party)
    requires Facts(cfg, p) && p.state == Client(ReadServerFinished)
    ensures Facts(cfg, DoReadServerFinished(cfg, p))
  {
    hide Advances, FinishedOk, Facts, Reads;
    FinishedFacts(cfg, p, DoReadServerFinished(cfg, p));
  }

  lemma ClientPassesFacts(cfg: Config, p: Party)
    requires Facts(cfg, p) && p.state.Client?
    requires p.state.c in {StartConnect, EnterEarlyData, SendClientKeyExchange,
      FinishFlight, ProcessServerCcs, FinishClientHandshake}
    ensures Facts(cfg, DoClient(cfg, p, false))
  {
    hide Advances, AddIf, DoReadServerHello, DoReadServerCertificate, DoReadCertificateStatus,
      DoVerifyServerCertificate,
      DoReadServerKeyExchange, DoReadCertificateRequest, DoReadServerHelloDone, DoSendClientCertificate,
      DoSendClientCertificateVerify, DoSendClientFinished, DoReadSessionTicket, DoReadServerFinished;
  }

  lemma ClientFacts(cfg: Config, p: Party, stall: bool)
    requires Facts(cfg, p) && p.state.Client?
    ensures Facts(cfg, DoClient(cfg, p, stall))
  {
    hide Advances, Facts, AddIf, DoReadServerHello, DoReadServerCertificate, DoReadCertificateStatus,
      DoVerifyServerCertificate,
      DoReadServerKeyExchange, DoReadCertificateRequest, DoReadServerHelloDone, DoSendClientCertificate,
      DoSendClientCertificateVerify, DoSendClientFinished, DoReadSessionTicket, DoReadServerFinished;
    match p.state.c
    case StartConnect => ClientPassesFacts(cfg, p);
    case EnterEarlyData => ClientPassesFacts(cfg, p);
    case ReadServerHello => ReadServerHelloFacts(cfg, p);
    case ReadServerCertificate => ReadServerCertificateFacts(cfg, p);
    case ReadCertificateStatus => ReadCertificateStatusFacts(cfg, p);
    case VerifyServerCertificate => VerifyServerCertificateFacts(cfg, p, stall);
    case ReadServerKeyExchange => ReadServerKeyExchangeFacts(cfg, p);
    case ReadCertificateRequest => ReadCertificateRequestFacts(cfg, p);
    case ReadServerHelloDone => ReadServerHelloDoneFacts(cfg, p);
    case SendClientCertificate => SendClientCertificateFacts(cfg, p, stall);
    case SendClientKeyExchange => ClientPassesFacts(cfg, p);
    case SendClientCertificateVerify => SendClientCertificateVerifyFacts(cfg, p, stall);
    case SendClientFinished => SendClientFinishedFacts(cfg, p, stall);
    case FinishFlight => ClientPassesFacts(cfg, p);
    case ReadSessionTicket => ReadSessionTicketFacts(cfg, p);
    case ProcessServerCcs => ClientPassesFacts(cfg, p);
    case ReadServerFinished => ReadServerFinishedFacts(cfg, p);
    case FinishClientHandshake => ClientPassesFacts(cfg, p);
    case ClientDone =>
  }

  // ----- Server -----------------------------------------------------------------------

  lemma ReadClientHelloFacts(cfg: Config, p: Party, stall: bool)
    requires Facts(cfg, p) && p.state == Server(ReadClientHello)
    ensures Facts(cfg, DoReadClientHello(cfg, p, stall))
  {
    hide Advances, Wrong, Switches, AddIf;
    Quiet(cfg, p, DoReadClientHello(cfg, p, stall));
  }

  lemma SelectCertificateFacts(cfg: Config, p: Party, stall: bool)
    requires Facts(cfg, p) && p.state == Server(SelectCertificate)
    ensures Facts(cfg, DoSelectCertificate(cfg, p, stall))
  {
    hide Advances, Wrong, Switches, AddIf;
    Quiet(cfg, p, DoSelectCertificate(cfg, p, stall));
  }

  lemma SelectParametersFacts(cfg: Config, p: Party, stall: bool)
    requires Facts(cfg, p) && p.state == Server(SelectParameters)
    ensures Facts(cfg, DoSelectParameters(cfg, p, stall))
  {
    hide Advances, Wrong, Switches, AddIf;
    Quiet(cfg, p, DoSelectParameters(cfg, p, stall));
  }

  lemma SendServerCertificateFacts(cfg: Config, p: Party)
    requires Facts(cfg, p) && p.state == Server(SendServerCertificate)
    ensures Facts(cfg, DoSendServerCertificate(cfg, p))
  {
    hide Advances, Wrong, Switches, AddIf;
    Quiet(cfg, p, DoSendServerCertificate(cfg, p));
  }

  lemma SendServerKeyExchangeFacts(cfg: Config, p: Party, stall: bool)
    requires Facts(cfg, p) && p.state == Server(SendServerKeyExchange)
    ensures Facts(cfg, DoSendServerKeyExchange(cfg, p, stall))
  {
    hide Advances, Wrong, Switches, AddIf;
    Quiet(cfg, p, DoSendServerKeyExchange(cfg, p, stall));
  }

  lemma SendServerHelloDoneFacts(cfg: Config, p: Party)
    requires Facts(cfg, p) && p.state == Server(SendServerHelloDone)
    ensures Facts(cfg, DoSendServerHelloDone(cfg, p))
  {
    hide Advances, Wrong, Switches, AddIf;
    Quiet(cfg, p, DoSendServerHelloDone(cfg, p));
  }

  lemma ReadClientCertificateFacts(cfg: Config, p: Party)
    requires Facts(cfg, p) && p.state == Server(ReadClientCertificate)
    ensures Facts(cfg, DoReadClientCertificate(cfg, p))
  {
    hide Advances, Wrong, Switches, AddIf;
    Quiet(cfg, p, DoReadClientCertificate(cfg, p));
  }

  lemma VerifyClientCertificateFacts(cfg: Config, p: Party, stall: bool)
    requires Facts(cfg, p) && p.state == Server(VerifyClientCertificate)
    ensures Facts(cfg, DoVerifyClientCertificate(cfg, p, stall))
  {
    hide Advances, Wrong, Switches, AddIf;
    Quiet(cfg, p, DoVerifyClientCertificate(cfg, p, stall));
  }

  lemma ReadClientKeyExchangeFacts(cfg: Config, p: Party, stall: bool)
    requires Facts(cfg, p) && p.state == Server(ReadClientKeyExchange)
    ensures Facts(cfg, DoReadClientKeyExchange(cfg, p, stall))
  {
    hide Advances, Wrong, Switches, AddIf;
    Quiet(cfg, p, DoReadClientKeyExchange(cfg, p, stall));
  }

  lemma ReadClientCertificateVerifyFacts(cfg: Config, p: Party)
    requires Facts(cfg, p) && p.state == Server(ReadClientCertificateVerify)
    ensures Facts(cfg, DoReadClientCertificateVerify(cfg, p))
  {
    hide Advances, Wrong, Switches, AddIf;
    Quiet(cfg, p, DoReadClientCertificateVerify(cfg, p));
  }

  lemma ReadClientFinishedFacts(cfg: Config, p: Party)
    requires Facts(cfg, p) && p.state == Server(ReadClientFinished)
    ensures Facts(cfg, DoReadClientFinished(cfg, p))
  {
    hide Advances, FinishedOk, Facts, Reads;
    FinishedFacts(cfg, p, DoReadClientFinished(cfg, p));
  }

  lemma SendServerFinishedFacts(cfg: Config, p: Party)
    requires Facts(cfg, p) && p.state == Server(SendServerFinished)
    ensures Facts(cfg, DoSendServerFinished(cfg, p))
  {
    hide Advances, Wrong, FinishedOk;
  }

  lemma ReadOptionalFacts(cfg: Config, p: Party, expected: bool, tag: Tag, next: ServerState)
    requires Facts(cfg, p) && p.state.Server? && (p.state.s, next) in {(ReadNextProto, ReadChannelId),
      (ReadChannelId, ReadClientFinished)}
    ensures Facts(cfg, DoReadOptional(cfg, p, expected, tag, next))
  {
    hide Advances, Wrong, Switches, SamePhase, OnPath, Reads;
    OptionalPhase(cfg, p.state.s, next);
    Quiet(cfg, p, DoReadOptional(cfg, p, expected, tag, next));
  }

  lemma ServerPassesFacts(cfg: Config, p: Party)
    requires Facts(cfg, p) && p.state.Server?
    requires p.state.s in {StartAccept, SendServerHello, ReadClientCcs, ProcessClientCcs, FinishServerHandshake}
    ensures Facts(cfg, DoServer(cfg, p, false))
  {
    hide Advances, AddIf, DoReadOptional, DoReadClientHello, DoSelectCertificate, DoSelectParameters,
      DoSendServerCertificate,
      DoSendServerKeyExchange, DoSendServerHelloDone, DoReadClientCertificate, DoVerifyClientCertificate,
      DoReadClientKeyExchange, DoReadClientCertificateVerify, DoReadClientFinished, DoSendServerFinished;
  }

  lemma ServerFacts(cfg: Config, p: Party, stall: bool)
    requires Facts(cfg, p) && p.state.Server?
    ensures Facts(cfg, DoServer(cfg, p, stall))
  {
    hide Advances, Facts, AddIf, DoReadOptional, DoReadClientHello, DoSelectCertificate, DoSelectParameters,
      DoSendServerCertificate,
      DoSendServerKeyExchange, DoSendServerHelloDone, DoReadClientCertificate, DoVerifyClientCertificate,
      DoReadClientKeyExchange, DoReadClientCertificateVerify, DoReadClientFinished, DoSendServerFinished;
    match p.state.s
    case StartAccept => ServerPassesFacts(cfg, p);
    case ReadClientHello => ReadClientHelloFacts(cfg, p, stall);
    case SelectCertificate => SelectCertificateFacts(cfg, p, stall);
    case SelectParameters => SelectParametersFacts(cfg, p, stall);
    case SendServerHello => ServerPassesFacts(cfg, p);
    case SendServerCertificate => SendServerCertificateFacts(cfg, p);
    case SendServerKeyExchange => SendServerKeyExchangeFacts(cfg, p, stall);
    case SendServerHelloDone => SendServerHelloDoneFacts(cfg, p);
    case ReadClientCertificate => ReadClientCertificateFacts(cfg, p);
    case VerifyClientCertificate => VerifyClientCertificateFacts(cfg, p, stall);
    case ReadClientKeyExchange => ReadClientKeyExchangeFacts(cfg, p, stall);
    case ReadClientCertificateVerify => ReadClientCertificateVerifyFacts(cfg, p);
    case ReadClientCcs => ServerPassesFacts(cfg, p);
    case ProcessClientCcs => ServerPassesFacts(cfg, p);
    case ReadNextProto => ReadOptionalFacts(cfg, p, cfg.nextProto, NextProto, ReadChannelId);
    case ReadChannelId => ReadOptionalFacts(cfg, p, cfg.channelId, ChannelId, ReadClientFinished);
    case ReadClientFinished => ReadClientFinishedFacts(cfg, p);
    case SendServerFinished => SendServerFinishedFacts(cfg, p);
    case FinishServerHandshake => ServerPassesFacts(cfg, p);
    case ServerDone =>
  }

  // ----- Every run -----------------------------------------------------------------------

  lemma WaitFacts(cfg: Config, p: Party, q: Party)
    requires Facts(cfg, p) && q == p.(wait := q.wait, inbox := q.inbox, flight := q.flight)
    ensures Facts(cfg, q)
  {
    hide FinishedBy, SentOwn, SwitchedRead, SeenPeer, Rank, OnPath;
  }

  lemma TurnFacts(cfg: Config, p: Party, input: seq<Item>, stall: bool)
    requires Facts(cfg, p)
    ensures Facts(cfg, Turn(cfg, p, input, stall).p)
  {
    hide DoClient, DoServer, Advances, Facts;
    if p.wait == Ok && !p.IsDone() {
      if p.state.Client? {
        ClientFacts(cfg, p, stall);
      } else {
        ServerFacts(cfg, p, stall);
      }
    } else {
      WaitFacts(cfg, p, Turn(cfg, p, input, stall).p);
    }
  }

  lemma {:induction false} RunFacts(cfg: Config, s: Side, stalls: seq<bool>)
    requires Facts(cfg, s.p)
    ensures Facts(cfg, SideRun(cfg, s, stalls).p)
    decreases |stalls|
  {
    hide Facts, Turn;
    if stalls != [] {
      TurnFacts(cfg, s.p, s.input, stalls[0]);
      RunFacts(cfg, SideStep(cfg, s, stalls[0]), stalls[1..]);
    }
  }

  // ----- The order of what is sent -------------------------------------------------------

  /** `out` is one ChangeCipherSpec and, behind it, one Finished, which comes last and whose MAC is
      over the transcript before it; otherwise it is only other messages. */
  predicate ClosedBy(cfg: Config, out: seq<Item>, transcript: seq<Message>, server: bool,
                     a: seq<Item>, b: seq<Item>, t: seq<Message>) {
    var m := Message(Finished, cfg.mac(t, server));
    out == a + [Ccs] + b + [Hs(m)] && Plain(a) && Plain(b) && t + [m] <= transcript
  }

  ghost predicate Closed(cfg: Config, out: seq<Item>, transcript: seq<Message>, server: bool) {
    exists a, b, t :: ClosedBy(cfg, out, transcript, server, a, b, t)
  }

  /** The order of what a side has sent or is about to. */
  ghost predicate InOrder(cfg: Config, state: State, out: seq<Item>, transcript: seq<Message>) {
    if SentOwn(cfg.resume, state) then Closed(cfg, out, transcript, state.Server?) else Plain(out)
  }

  lemma ReadsAdds(p: Party, q: Party)
    requires Reads(p, q)
    ensures Adds(p, q)
  {
    assert q.flight[|p.flight|..] == [];
  }

  lemma AddIfAdds(cfg: Config, p: Party, send: bool, tag: Tag, fromServer: bool)
    requires tag != Finished
    ensures Adds(p, AddIf(cfg, p, send, tag, fromServer))
  {
    var q := AddIf(cfg, p, send, tag, fromServer);
    if !send {
      AddsNothing(p);
    } else {
      assert q.flight[|p.flight|..] == [Hs(Message(tag, cfg.body(tag, fromServer)))];
    }
  }

  lemma SendClientCertificateAdds(cfg: Config, p: Party, stall: bool)
    requires p.state == Client(SendClientCertificate)
    ensures Adds(p, DoSendClientCertificate(cfg, p, stall))
  {
    hide Advances, AddIf, Plain;
    AddsNothing(p);
    AddIfAdds(cfg, if cfg.clientHasCert then p else p.FreeBuffer(), true, Certificate, false);
  }

  lemma SendClientCertificateVerifyAdds(cfg: Config, p: Party, stall: bool)
    requires p.state == Client(SendClientCertificateVerify)
    ensures Adds(p, DoSendClientCertificateVerify(cfg, p, stall))
  {
    hide Advances;
    AddsNothing(p);
    assert (p.flight + [Hs(Message(CertificateVerify, cfg.sign(p.Buffer())))])[|p.flight|..] ==
      [Hs(Message(CertificateVerify, cfg.sign(p.Buffer())))];
  }

  lemma SendServerCertificateAdds(cfg: Config, p: Party)
    requires p.state == Server(SendServerCertificate)
    ensures Adds(p, DoSendServerCertificate(cfg, p))
  {
    hide Advances, AddIf, Plain;
    AddsNothing(p);
    var q := AddIf(cfg, p, cfg.certAuth, Certificate, true);
    AddIfAdds(cfg, p, cfg.certAuth, Certificate, true);
    AddIfAdds(cfg, q, cfg.certAuth && cfg.status, CertificateStatus, true);
    AddsMore(p, q, AddIf(cfg, q, cfg.certAuth && cfg.status, CertificateStatus, true));
  }

  lemma SendServerKeyExchangeAdds(cfg: Config, p: Party, stall: bool)
    requires p.state == Server(SendServerKeyExchange)
    ensures Adds(p, DoSendServerKeyExchange(cfg, p, stall))
  {
    hide Advances, AddIf, Plain;
    AddsNothing(p);
    AddIfAdds(cfg, p, true, ServerKeyExchange, true);
  }

  lemma SendServerHelloDoneAdds(cfg: Config, p: Party)
    requires p.state == Server(SendServerHelloDone)
    ensures Adds(p, DoSendServerHelloDone(cfg, p))
  {
    hide Advances, AddIf, Plain;
    var q := AddIf(cfg, p, p.certRequest, CertificateRequest, true);
    AddIfAdds(cfg, p, p.certRequest, CertificateRequest, true);
    AddIfAdds(cfg, q, true, ServerHelloDone, true);
    AddsMore(p, q, AddIf(cfg, q, true, ServerHelloDone, true));
  }

  /** States that do nothing to the flight but, perhaps, add one message. */
  lemma ClientPassesAdd(cfg: Config, p: Party)
    requires p.state.Client? && p.state.c in {StartConnect, EnterEarlyData, SendClientKeyExchange,
      FinishFlight, ProcessServerCcs, FinishClientHandshake, ClientDone}
    ensures Adds(p, DoClient(cfg, p, false))
    ensures p.state.c !in {StartConnect, SendClientKeyExchange} ==> Reads(p, DoClient(cfg, p, false))
  {
    hide Advances, AddIf, DoReadServerHello, DoReadServerCertificate, DoReadCertificateStatus,
      DoVerifyServerCertificate,
      DoReadServerKeyExchange, DoReadCertificateRequest, DoReadServerHelloDone, DoSendClientCertificate,
      DoSendClientCertificateVerify, DoSendClientFinished, DoReadSessionTicket, DoReadServerFinished;
    AddsNothing(p);
    AddIfAdds(cfg, p, true, if p.state.c == StartConnect then ClientHello else ClientKeyExchange, false);
  }

  /** Up to its Finished a client adds other messages, and behind it nothing. */
  lemma ClientAdds(cfg: Config, p: Party, stall: bool)
    requires p.state.Client? && p.state.c != SendClientFinished
    ensures Adds(p, DoClient(cfg, p, stall))
    ensures OnPath(cfg, p.state) && SentOwn(cfg.resume, p.state) ==> Reads(p, DoClient(cfg, p, stall))
  {
    hide Advances, Adds, Reads, AddIf, DoReadServerHello, DoReadServerCertificate, DoReadCertificateStatus,
      DoVerifyServerCertificate, DoReadServerKeyExchange, DoReadCertificateRequest, DoReadServerHelloDone,
      DoSendClientCertificate, DoSendClientCertificateVerify, DoSendClientFinished, DoReadSessionTicket,
      DoReadServerFinished;
    match p.state.c
    case StartConnect => ClientPassesAdd(cfg, p);
    case EnterEarlyData => ClientPassesAdd(cfg, p);
    case ReadServerHello => ReadsAdds(p, DoReadServerHello(cfg, p));
    case ReadServerCertificate => ReadsAdds(p, DoReadServerCertificate(cfg, p));
    case ReadCertificateStatus => ReadsAdds(p, DoReadCertificateStatus(cfg, p));
    case VerifyServerCertificate => ReadsAdds(p, DoVerifyServerCertificate(cfg, p, stall));
    case ReadServerKeyExchange => ReadsAdds(p, DoReadServerKeyExchange(cfg, p));
    case ReadCertificateRequest => ReadsAdds(p, DoReadCertificateRequest(cfg, p));
    case ReadServerHelloDone => ReadsAdds(p, DoReadServerHelloDone(cfg, p));
    case SendClientCertificate => SendClientCertificateAdds(cfg, p, stall);
    case SendClientKeyExchange => ClientPassesAdd(cfg, p);
    case SendClientCertificateVerify => SendClientCertificateVerifyAdds(cfg, p, stall);
    case FinishFlight => ClientPassesAdd(cfg, p);
    case ReadSessionTicket => ReadsAdds(p, DoReadSessionTicket(cfg, p));
    case ProcessServerCcs => ClientPassesAdd(cfg, p);
    case ReadServerFinished => ReadsAdds(p, DoReadServerFinished(cfg, p));
    case FinishClientHandshake => ClientPassesAdd(cfg, p);
    case ClientDone => ClientPassesAdd(cfg, p);
  }

  lemma ServerPassesAdd(cfg: Config, p: Party)
    requires p.state.Server?
    requires p.state.s in {StartAccept, SendServerHello, ReadClientCcs, ProcessClientCcs, FinishServerHandshake,
      ServerDone}
    ensures Adds(p, DoServer(cfg, p, false))
    ensures p.state.s != SendServerHello ==> Reads(p, DoServer(cfg, p, false))
  {
    hide Advances, AddIf, DoReadOptional, DoReadClientHello, DoSelectCertificate, DoSelectParameters,
      DoSendServerCertificate, DoSendServerKeyExchange, DoSendServerHelloDone, DoReadClientCertificate,
      DoVerifyClientCertificate, DoReadClientKeyExchange, DoReadClientCertificateVerify, DoReadClientFinished,
      DoSendServerFinished;
    AddsNothing(p);
    AddIfAdds(cfg, p, true, ServerHello, true);
  }

  /** Up to its Finished a server adds other messages, and behind it nothing. */
  lemma ServerAdds(cfg: Config, p: Party, stall: bool)
    requires p.state.Server? && p.state.s != SendServerFinished
    ensures Adds(p, DoServer(cfg, p, stall))
    ensures OnPath(cfg, p.state) && SentOwn(cfg.resume, p.state) ==> Reads(p, DoServer(cfg, p, stall))
  {
    hide Advances, Adds, Reads, AddIf, DoReadOptional, DoReadClientHello, DoSelectCertificate, DoSelectParameters,
      DoSendServerCertificate, DoSendServerKeyExchange, DoSendServerHelloDone, DoReadClientCertificate,
      DoVerifyClientCertificate, DoReadClientKeyExchange, DoReadClientCertificateVerify, DoReadClientFinished,
      DoSendServerFinished;
    match p.state.s
    case StartAccept => ServerPassesAdd(cfg, p);
    case ReadClientHello => ReadsAdds(p, DoReadClientHello(cfg, p, stall));
    case SelectCertificate => ReadsAdds(p, DoSelectCertificate(cfg, p, stall));
    case SelectParameters => ReadsAdds(p, DoSelectParameters(cfg, p, stall));
    case SendServerHello => ServerPassesAdd(cfg, p);
    case SendServerCertificate => SendServerCertificateAdds(cfg, p);
    case SendServerKeyExchange => SendServerKeyExchangeAdds(cfg, p, stall);
    case SendServerHelloDone => SendServerHelloDoneAdds(cfg, p);
    case ReadClientCertificate => ReadsAdds(p, DoReadClientCertificate(cfg, p));
    case VerifyClientCertificate => ReadsAdds(p, DoVerifyClientCertificate(cfg, p, stall));
    case ReadClientKeyExchange => ReadsAdds(p, DoReadClientKeyExchange(cfg, p, stall));
    case ReadClientCertificateVerify => ReadsAdds(p, DoReadClientCertificateVerify(cfg, p));
    case ReadClientCcs => ServerPassesAdd(cfg, p);
    case ProcessClientCcs => ServerPassesAdd(cfg, p);
    case ReadNextProto => ReadsAdds(p, DoReadOptional(cfg, p, cfg.nextProto, NextProto, ReadChannelId));
    case ReadChannelId => ReadsAdds(p, DoReadOptional(cfg, p, cfg.channelId, ChannelId, ReadClientFinished));
    case ReadClientFinished => ReadsAdds(p, DoReadClientFinished(cfg, p));
    case FinishServerHandshake => ServerPassesAdd(cfg, p);
    case ServerDone => ServerPassesAdd(cfg, p);
  }

  /** A flight that closes: messages, ChangeCipherSpec, messages, Finished. */
  lemma FlightCloses(cfg: Config, out: seq<Item>, p: Party, a: Party, b: Party, q: Party, server: bool)
    requires Plain(out) && Adds(p, a) && Adds(a.AddCcs(), b) && q == AddFinished(cfg, b, server)
    ensures Plain(out + p.flight) ==> Closed(cfg, out + q.flight, q.transcript, server)
    ensures p.transcript <= q.transcript
  {
    var x, y := a.flight[|p.flight|..], b.flight[|a.flight| + 1..];
    var m := Message(Finished, cfg.mac(b.transcript, server));
    assert a.flight == p.flight + x && b.flight == a.flight + [Ccs] + y;
    assert q.flight == b.flight + [Hs(m)] && q.transcript == b.transcript + [m];
    assert out + q.flight == (out + p.flight + x) + [Ccs] + y + [Hs(m)];
    if Plain(out + p.flight) {
      assert ClosedBy(cfg, out + q.flight, q.transcript, server, out + p.flight + x, y, b.transcript);
    }
  }

  lemma AddsMore(p: Party, q: Party, r: Party)
    requires Adds(p, q) && Adds(q, r)
    ensures Adds(p, r)
  {
    assert r.flight[|p.flight|..] == q.flight[|p.flight|..] + r.flight[|q.flight|..];
  }

  lemma SendFinishedCloses(cfg: Config, out: seq<Item>, p: Party, stall: bool)
    requires p.state in {Client(SendClientFinished), Server(SendServerFinished)} && Plain(out) && Plain(out + p.flight)
    ensures var q := Do(cfg, p, stall);
      q == p.(wait := q.wait) ||
        (Closed(cfg, out + q.flight, q.transcript, q.state.Server?) && p.transcript <= q.transcript)
  {
    hide Advances, Adds, Closed, Plain;
    if p.state.Client? {
      var q := AddIf(cfg, p.AddCcs(), cfg.nextProto, NextProto, false);
      var r := AddIf(cfg, q, cfg.channelId, ChannelId, false);
      AddIfAdds(cfg, p.AddCcs(), cfg.nextProto, NextProto, false);
      AddIfAdds(cfg, q, cfg.channelId, ChannelId, false);
      AddsMore(p.AddCcs(), q, r);
      AddsNothing(p);
      FlightCloses(cfg, out, p, p, r, AddFinished(cfg, r, false), false);
    } else {
      var a := AddIf(cfg, p, cfg.ticket, NewSessionTicket, true);
      AddIfAdds(cfg, p, cfg.ticket, NewSessionTicket, true);
      AddsNothing(a.AddCcs());
      FlightCloses(cfg, out, p, a, a.AddCcs(), AddFinished(cfg, a.AddCcs(), true), true);
    }
  }

  lemma TranscriptGrows(cfg: Config, p: Party)
    requires p.state in {Client(SendClientFinished), Server(SendServerFinished)}
    ensures p.transcript <= Do(cfg, p, false).transcript
  {
    hide Advances, AddIf;
    AddIfAdds(cfg, p.AddCcs(), cfg.nextProto, NextProto, false);
    AddIfAdds(cfg, AddIf(cfg, p.AddCcs(), cfg.nextProto, NextProto, false), cfg.channelId, ChannelId, false);
    AddIfAdds(cfg, p, cfg.ticket, NewSessionTicket, true);
  }

  lemma AddsNothing(p: Party)
    ensures Adds(p, p)
  {
    assert p.flight[|p.flight|..] == [];
  }

  lemma ClosedLater(cfg: Config, out: seq<Item>, t: seq<Message>, t': seq<Message>, server: bool)
    requires Closed(cfg, out, t, server) && t <= t'
    ensures Closed(cfg, out, t', server)
  {
    var a, b, u :| ClosedBy(cfg, out, t, server, a, b, u);
    assert ClosedBy(cfg, out, t', server, a, b, u);
  }

  lemma DoInOrder(cfg: Config, out: seq<Item>, p: Party, stall: bool)
    requires Facts(cfg, p) && p.wait == Ok && !p.IsDone()
    requires InOrder(cfg, p.state, out + p.flight, p.transcript)
    ensures var q := Do(cfg, p, stall); InOrder(cfg, q.state, out + q.flight, q.transcript)
  {
    hide Advances, DoClient, DoServer, OnPath, KeepsBuffer, FinishedBy, SwitchedRead, SeenPeer, SentOwn, Closed,
      Reads, Plain;
    var q := Do(cfg, p, stall);
    if p.state in {Client(SendClientFinished), Server(SendServerFinished)} {
      NotSent(cfg, p.state);
      PlainParts(out, p.flight);
      SendFinishedCloses(cfg, out, p, stall);
      SentBehind(cfg, p, stall);
    } else {
      if p.state.Client? {
        ClientFacts(cfg, p, stall);
        ClientAdds(cfg, p, stall);
      } else {
        ServerFacts(cfg, p, stall);
        ServerAdds(cfg, p, stall);
      }
      MoreInOrder(cfg, out, p, q);
    }
  }

  lemma PlainParts(a: seq<Item>, b: seq<Item>)
    ensures Plain(a + b) <==> Plain(a) && Plain(b)
  {
    if Plain(a + b) {
      forall i | 0 <= i < |a|
        ensures a[i].Hs? && a[i].m.tag != Finished
      {
        assert (a + b)[i] == a[i];
      }
      forall i | 0 <= i < |b|
        ensures b[i].Hs? && b[i].m.tag != Finished
      {
        assert (a + b)[|a| + i] == b[i];
      }
    }
  }

  lemma NotSent(cfg: Config, state: State)
    ensures state in {Client(SendClientFinished), Server(SendServerFinished)} ==> !SentOwn(cfg.resume, state)
  {
  }

  lemma SentBehind(cfg: Config, p: Party, stall: bool)
    requires p.state in {Client(SendClientFinished), Server(SendServerFinished)}
    ensures var q := Do(cfg, p, stall);
      q == p.(wait := q.wait) || (SentOwn(cfg.resume, q.state) && q.state.Server? == p.state.Server?)
  {
    hide Advances, Adds, Reads, AddIf, AddFinished;
  }

  lemma MoreInOrder(cfg: Config, out: seq<Item>, p: Party, q: Party)
    requires InOrder(cfg, p.state, out + p.flight, p.transcript) && p.state.Server? == q.state.Server?
    requires Facts(cfg, p) && Facts(cfg, q) && Adds(p, q)
    requires SentOwn(cfg.resume, p.state) ==> Reads(p, q)
    ensures InOrder(cfg, q.state, out + q.flight, q.transcript)
  {
    hide OnPath, KeepsBuffer, FinishedBy, SwitchedRead, SeenPeer, SentOwn, Closed, Plain;
    if SentOwn(cfg.resume, p.state) {
      ClosedLater(cfg, out + p.flight, p.transcript, q.transcript, p.state.Server?);
    } else {
      var x := q.flight[|p.flight|..];
      assert q.flight == p.flight + x && out + q.flight == (out + p.flight) + x;
      PlainParts(out + p.flight, x);
    }
  }

  lemma TurnInOrder(cfg: Config, s: Side, stall: bool)
    requires Facts(cfg, s.p) && InOrder(cfg, s.p.state, s.sent + s.p.flight, s.p.transcript)
    ensures var t := SideStep(cfg, s, stall);
      InOrder(cfg, t.p.state, t.sent + t.p.flight, t.p.transcript)
  {
    hide Do, Facts, InOrder;
    assert s.sent + [] == s.sent;
    if s.p.wait == Ok && !s.p.IsDone() {
      DoInOrder(cfg, s.sent, s.p, stall);
    } else {
      assert s.sent + s.p.flight + [] == s.sent + s.p.flight;
    }
  }

  lemma {:induction false} RunInOrder(cfg: Config, s: Side, stalls: seq<bool>)
    requires Facts(cfg, s.p) && InOrder(cfg, s.p.state, s.sent + s.p.flight, s.p.transcript)
    ensures var t := SideRun(cfg, s, stalls);
      InOrder(cfg, t.p.state, t.sent + t.p.flight, t.p.transcript)
    decreases |stalls|
  {
    hide Facts, Turn, InOrder;
    if stalls != [] {
      TurnFacts(cfg, s.p, s.input, stalls[0]);
      TurnInOrder(cfg, s, stalls[0]);
      RunInOrder(cfg, SideStep(cfg, s, stalls[0]), stalls[1..]);
    }
  }

  /** Whatever the other side sends: a side that is done has changed each key once and has sent
      one Finished and verified one, in the order fixed by resumption; its own keys are changed
      before its Finished and the other's before the other's. In what it sends, one
      ChangeCipherSpec comes before its one Finished, whose MAC is over the transcript before it,
      and nothing comes after; and a CertificateVerify is only ever signed or verified with the
      transcript live. */
  lemma WholeRun(cfg: Config, start: Party, input: seq<Item>, stalls: seq<bool>)
    requires start == CLIENT_START || start == SERVER_START
    ensures var s := SideRun(cfg, Side(start, input, []), stalls);
      var p, out := s.p, s.sent + s.p.flight;
      && (p.IsDone() ==> p.writeKeys == 1 && p.readKeys == 1 && p.finished == [cfg.resume, !cfg.resume])
      && p.writeKeys <= 1 && p.readKeys <= 1
      && (p.state.Server? in p.finished ==> p.writeKeys == 1)
      && (!p.state.Server? in p.finished ==> p.readKeys == 1)
      && (if p.state.Server? in p.finished then Closed(cfg, out, p.transcript, p.state.Server?) else Plain(out))
      && (p.state == Client(SendClientCertificateVerify) && p.certRequest && cfg.clientHasCert ==> p.live)
      && (p.state == Server(ReadClientCertificateVerify) && p.peerCert ==> p.live)
  {
    hide SideRun, Turn, Closed;
    RunFacts(cfg, Side(start, input, []), stalls);
    RunInOrder(cfg, Side(start, input, []), stalls);
  }
}
