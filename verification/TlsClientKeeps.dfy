/** Every state of the client machine keeps its place in the order of the handshake. */
module TlsClientKeeps {
  import opened TlsSteps
  import opened TlsScript
  import opened TlsLocal

  lemma StartConnectKeeps(cfg: Config, p: Party)
    requires Ready(cfg, p) && p.state == Client(StartConnect)
    ensures Kept(cfg, p, DoClient(cfg, p, false))
  {
    hide Items, Transcript, Next, Advances;
    ItemsOne(cfg, 0);
    AddPlaceOk(cfg, p, 0);
  }

  lemma EnterEarlyDataKeeps(cfg: Config, p: Party)
    requires Ready(cfg, p) && p.state == Client(EnterEarlyData)
    ensures Kept(cfg, p, DoClient(cfg, p, false))
  {
    hide Items, Transcript, Next, Advances;
    ItemsOne(cfg, 1);
  }

  lemma ReadServerHelloKeeps(cfg: Config, p: Party)
    requires Ready(cfg, p) && p.state == Client(ReadServerHello)
    ensures Kept(cfg, p, DoReadServerHello(cfg, p))
  {
    hide Items, Transcript, Next, Advances;
    NextBefore(cfg, 1, 1);
    ItemsOne(cfg, 1);
    TranscriptStep(cfg, 1);
    if p.inbox.Some? && Next(cfg, 1) == 1 {
      ConsumeOk(cfg, p, 1);
    }
  }

  lemma ReadServerCertificateKeeps(cfg: Config, p: Party)
    requires Ready(cfg, p) && p.state == Client(ReadServerCertificate)
    ensures Kept(cfg, p, DoReadServerCertificate(cfg, p))
  {
    hide Items, Transcript, Next, Advances;
    NextBefore(cfg, 2, 6);
    ItemsOne(cfg, 2);
    TranscriptStep(cfg, 2);
    if p.inbox.Some? && Next(cfg, 2) == 2 {
      ConsumeOk(cfg, p, 2);
    }
  }

  lemma ReadCertificateStatusKeeps(cfg: Config, p: Party)
    requires Ready(cfg, p) && p.state == Client(ReadCertificateStatus)
    ensures Kept(cfg, p, DoReadCertificateStatus(cfg, p))
  {
    hide Items, Transcript, Next, Advances;
    NextBefore(cfg, 3, 6);
    ItemsOne(cfg, 3);
    TranscriptStep(cfg, 3);
    if p.inbox.Some? && Next(cfg, 3) == 3 {
      ConsumeOk(cfg, p, 3);
    }
  }

  lemma VerifyServerCertificateKeeps(cfg: Config, p: Party, stall: bool)
    requires Ready(cfg, p) && p.state == Client(VerifyServerCertificate)
    ensures Kept(cfg, p, DoVerifyServerCertificate(cfg, p, stall))
  {
    hide Items, Transcript, Next, Advances;
    ItemsOne(cfg, 4);
  }

  lemma ReadServerKeyExchangeKeeps(cfg: Config, p: Party)
    requires Ready(cfg, p) && p.state == Client(ReadServerKeyExchange)
    ensures Kept(cfg, p, DoReadServerKeyExchange(cfg, p))
  {
    hide Items, Transcript, Next, Advances;
    NextBefore(cfg, 4, 6);
    ItemsOne(cfg, 4);
    TranscriptStep(cfg, 4);
    if p.inbox.Some? && Next(cfg, 4) == 4 {
      ConsumeOk(cfg, p, 4);
    }
  }

  lemma ReadCertificateRequestKeeps(cfg: Config, p: Party)
    requires Ready(cfg, p) && p.state == Client(ReadCertificateRequest)
    ensures Kept(cfg, p, DoReadCertificateRequest(cfg, p))
  {
    hide Items, Transcript, Next, Advances;
    NextBefore(cfg, 5, 6);
    ItemsOne(cfg, 5);
    TranscriptStep(cfg, 5);
    if p.inbox.Some? && Next(cfg, 5) == 5 {
      ConsumeOk(cfg, p, 5);
    }
  }

  lemma ReadServerHelloDoneKeeps(cfg: Config, p: Party)
    requires Ready(cfg, p) && p.state == Client(ReadServerHelloDone)
    ensures Kept(cfg, p, DoReadServerHelloDone(cfg, p))
  {
    hide Items, Transcript, Next, Advances;
    NextBefore(cfg, 6, 6);
    ItemsOne(cfg, 6);
    TranscriptStep(cfg, 6);
    if p.inbox.Some? && Next(cfg, 6) == 6 {
      ConsumeOk(cfg, p, 6);
    }
  }

  lemma SendClientCertificateKeeps(cfg: Config, p: Party, stall: bool)
    requires Ready(cfg, p) && p.state == Client(SendClientCertificate)
    ensures Kept(cfg, p, DoSendClientCertificate(cfg, p, stall))
  {
    hide Items, Transcript, Next, Advances;
    ItemsOne(cfg, 7);
    AddPlaceOk(cfg, p, 7);
  }

  lemma SendClientKeyExchangeKeeps(cfg: Config, p: Party)
    requires Ready(cfg, p) && p.state == Client(SendClientKeyExchange)
    ensures Kept(cfg, p, DoClient(cfg, p, false))
  {
    hide Items, Transcript, Next, Advances;
    ItemsOne(cfg, 8);
    AddPlaceOk(cfg, p, 8);
  }

  lemma SendClientCertificateVerifyKeeps(cfg: Config, p: Party, stall: bool)
    requires Ready(cfg, p) && p.state == Client(SendClientCertificateVerify)
    ensures Kept(cfg, p, DoSendClientCertificateVerify(cfg, p, stall))
  {
    hide Items, Transcript, Next, Advances;
    ItemsOne(cfg, 9);
    AddPlaceOk(cfg, p, 9);
  }

  lemma AddFour(cfg: Config, p: Party, k: nat) returns (q: Party, r: Party, t: Party, u: Party)
    requires k + 4 <= Length(cfg) && p.transcript == Transcript(cfg, k)
    ensures q == AddPlace(cfg, p, k) && r == AddPlace(cfg, q, k + 1)
    ensures t == AddPlace(cfg, r, k + 2) && u == AddPlace(cfg, t, k + 3)
    ensures r.transcript == Transcript(cfg, k + 2) && t.transcript == Transcript(cfg, k + 3)
    ensures u.transcript == Transcript(cfg, k + 4) && u.flight == p.flight + Items(cfg, k, k + 4)
  {
    hide At, ItemsAt, Items, Transcript, MessageAt, AddPlace;
    q, r, t := AddThree(cfg, p, k);
    u := AddPlace(cfg, t, k + 3);
    AddPlaceOk(cfg, t, k + 3);
    ItemsOne(cfg, k + 3);
    ItemsSplit(cfg, k, k + 3, k + 4);
    assert p.flight + Items(cfg, k, k + 3) + Items(cfg, k + 3, k + 4) ==
      p.flight + (Items(cfg, k, k + 3) + Items(cfg, k + 3, k + 4));
  }

  lemma LastPlaces(cfg: Config, k: nat)
    requires k == ClientCcs(cfg)
    ensures k + 4 <= Length(cfg)
    ensures At(cfg, k) == Place(false, Change)
    ensures At(cfg, k + 1) == Place(false, If(cfg.nextProto, NextProto))
    ensures At(cfg, k + 2) == Place(false, If(cfg.channelId, ChannelId))
    ensures At(cfg, k + 3) == Place(false, Sent(Finished))
  {
  }

  /** ChangeCipherSpec, NextProto, ChannelId and Finished, place by place. */
  lemma LastFlight(cfg: Config, p: Party, k: nat) returns (u: Party)
    requires k == ClientCcs(cfg) && p.transcript == Transcript(cfg, k)
    requires p.state == Client(SendClientFinished)
    ensures u.transcript == Transcript(cfg, k + 4) && u.flight == p.flight + Items(cfg, k, k + 4)
    ensures u == p.(transcript := u.transcript, flight := u.flight, writeKeys := p.writeKeys + 1,
      finished := p.finished + [false])
    ensures DoSendClientFinished(cfg, p, false) == u.ToC(FinishFlight).Waiting(Flush)
  {
    hide Items, Transcript, ItemsAt, Advances, At;
    LastPlaces(cfg, k);
    var q, r, t;
    q, r, t, u := AddFour(cfg, p, k);
    assert q == p.AddCcs();
    assert r == AddIf(cfg, q, cfg.nextProto, NextProto, false);
    assert t == AddIf(cfg, r, cfg.channelId, ChannelId, false);
    u := u.(finished := p.finished + [false]);
    assert u == AddFinished(cfg, t, false);
  }

  lemma FinishedSentOk(cfg: Config, p: Party, u: Party)
    requires Ready(cfg, p) && p.state == Client(SendClientFinished) && p.inbox.None?
    requires u.transcript == Transcript(cfg, ClientCcs(cfg) + 4)
    requires u == p.(transcript := u.transcript, flight := u.flight, writeKeys := p.writeKeys + 1,
      finished := p.finished + [false])
    ensures PartyOk(cfg, u.ToC(FinishFlight).Waiting(Flush))
  {
    hide Transcript, Next, At, Honest, Expected;
  }

  lemma FinishedSentMoves(cfg: Config, p: Party, q: Party)
    requires p.state == Client(SendClientFinished) && q.state == Client(FinishFlight) && q.inbox == p.inbox
    requires q.flight == p.flight + Items(cfg, ClientCcs(cfg), ClientCcs(cfg) + 4)
    ensures Moves(cfg, p, q)
  {
    hide Items, At;
    LastPlaces(cfg, ClientCcs(cfg));
  }

  lemma NothingCurrent(cfg: Config, p: Party)
    requires Ready(cfg, p) && p.state == Client(SendClientFinished)
    ensures p.inbox.None? && p.transcript == Transcript(cfg, ClientCcs(cfg))
    ensures PartyOk(cfg, p.Waiting(Async)) && Moves(cfg, p, p.Waiting(Async))
  {
    hide Items, Transcript, Next;
    NextBefore(cfg, ClientCcs(cfg), ClientCcs(cfg));
    ItemsNothing(cfg, ClientCcs(cfg), ClientCcs(cfg));
  }

  lemma SendClientFinishedKeeps(cfg: Config, p: Party, stall: bool)
    requires Ready(cfg, p) && p.state == Client(SendClientFinished)
    ensures Kept(cfg, p, DoSendClientFinished(cfg, p, stall))
  {
    hide Items, Transcript, Advances, Moves, PartyOk, PlaceOf, AddIf, AddFinished;
    NothingCurrent(cfg, p);
    var u := LastFlight(cfg, p, ClientCcs(cfg));
    FinishedSentOk(cfg, p, u);
    FinishedSentMoves(cfg, p, u.ToC(FinishFlight).Waiting(Flush));
  }

  lemma FinishFlightKeeps(cfg: Config, p: Party)
    requires Ready(cfg, p) && p.state == Client(FinishFlight)
    ensures Kept(cfg, p, DoClient(cfg, p, false))
  {
    hide Items, Transcript, Next, Advances;
    ItemsOne(cfg, if cfg.resume then 8 else 13);
    ItemsNothing(cfg, PlaceOf(cfg, p), PlaceOf(cfg, p));
  }

  lemma ReadSessionTicketKeeps(cfg: Config, p: Party)
    requires Ready(cfg, p) && p.state == Client(ReadSessionTicket)
    ensures Kept(cfg, p, DoReadSessionTicket(cfg, p))
  {
    hide Items, Transcript, Next, Advances;
    var k := if cfg.resume then 2 else 14;
    NextBefore(cfg, k, k + 1);
    ItemsOne(cfg, k);
    TranscriptStep(cfg, k);
    if p.inbox.Some? && Next(cfg, k) == k {
      ConsumeOk(cfg, p, k);
    }
  }

  lemma ProcessServerCcsKeeps(cfg: Config, p: Party)
    requires Ready(cfg, p) && p.state == Client(ProcessServerCcs)
    ensures Kept(cfg, p, DoClient(cfg, p, false))
  {
    hide Items, Transcript, Next, Advances;
    ItemsNothing(cfg, PlaceOf(cfg, p), PlaceOf(cfg, p));
  }

  lemma ReadServerFinishedKeeps(cfg: Config, p: Party)
    requires Ready(cfg, p) && p.state == Client(ReadServerFinished)
    ensures Kept(cfg, p, DoReadServerFinished(cfg, p))
  {
    hide Items, Transcript, Next, Advances, Reads;
    var k := if cfg.resume then 4 else 16;
    NextBefore(cfg, k, k);
    ItemsOne(cfg, k);
    TranscriptStep(cfg, k);
    if p.inbox.Some? && Next(cfg, k) == k {
      ConsumeOk(cfg, p, k);
    }
  }

  lemma FinishClientHandshakeKeeps(cfg: Config, p: Party)
    requires Ready(cfg, p) && p.state == Client(FinishClientHandshake)
    ensures Kept(cfg, p, DoClient(cfg, p, false))
  {
    hide Items, Transcript, Next, Advances;
    ItemsNothing(cfg, PlaceOf(cfg, p), PlaceOf(cfg, p));
  }

  /** Whatever state the client is in. */
  lemma ClientKeeps(cfg: Config, p: Party, stall: bool)
    requires Ready(cfg, p) && p.state.Client? && !p.IsDone()
    ensures Kept(cfg, p, DoClient(cfg, p, stall))
  {
    hide Ready, Kept, DoReadServerHello, DoReadServerCertificate, DoReadCertificateStatus, DoVerifyServerCertificate,
      DoReadServerKeyExchange, DoReadCertificateRequest, DoReadServerHelloDone, DoSendClientCertificate,
      DoSendClientCertificateVerify, DoSendClientFinished, DoReadSessionTicket, DoReadServerFinished, AddIf;
    match p.state.c
    case StartConnect => StartConnectKeeps(cfg, p);
    case EnterEarlyData => EnterEarlyDataKeeps(cfg, p);
    case ReadServerHello => ReadServerHelloKeeps(cfg, p);
    case ReadServerCertificate => ReadServerCertificateKeeps(cfg, p);
    case ReadCertificateStatus => ReadCertificateStatusKeeps(cfg, p);
    case VerifyServerCertificate => VerifyServerCertificateKeeps(cfg, p, stall);
    case ReadServerKeyExchange => ReadServerKeyExchangeKeeps(cfg, p);
    case ReadCertificateRequest => ReadCertificateRequestKeeps(cfg, p);
    case ReadServerHelloDone => ReadServerHelloDoneKeeps(cfg, p);
    case SendClientCertificate => SendClientCertificateKeeps(cfg, p, stall);
    case SendClientKeyExchange => SendClientKeyExchangeKeeps(cfg, p);
    case SendClientCertificateVerify => SendClientCertificateVerifyKeeps(cfg, p, stall);
    case SendClientFinished => SendClientFinishedKeeps(cfg, p, stall);
    case FinishFlight => FinishFlightKeeps(cfg, p);
    case ReadSessionTicket => ReadSessionTicketKeeps(cfg, p);
    case ProcessServerCcs => ProcessServerCcsKeeps(cfg, p);
    case ReadServerFinished => ReadServerFinishedKeeps(cfg, p);
    case FinishClientHandshake => FinishClientHandshakeKeeps(cfg, p);
  }
}
