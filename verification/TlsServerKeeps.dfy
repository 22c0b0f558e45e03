/** Every state of the server machine keeps its place in the order of the handshake. */
module TlsServerKeeps {
  import opened TlsSteps
  import opened TlsScript
  import opened TlsLocal

  lemma StartAcceptKeeps(cfg: Config, p: Party)
    requires Ready(cfg, p) && p.state == Server(StartAccept)
    ensures Kept(cfg, p, DoServer(cfg, p, false))
  {
    hide Items, Transcript, Next, Advances;
    ItemsNothing(cfg, PlaceOf(cfg, p), PlaceOf(cfg, p));
  }

  lemma ReadClientHelloKeeps(cfg: Config, p: Party, stall: bool)
    requires Ready(cfg, p) && p.state == Server(ReadClientHello)
    ensures Kept(cfg, p, DoReadClientHello(cfg, p, stall))
  {
    hide Items, Transcript, Next, Advances;
    NextBefore(cfg, 0, 0);
    ItemsNothing(cfg, PlaceOf(cfg, p), PlaceOf(cfg, p));
  }

  lemma SelectCertificateKeeps(cfg: Config, p: Party, stall: bool)
    requires Ready(cfg, p) && p.state == Server(SelectCertificate)
    ensures Kept(cfg, p, DoSelectCertificate(cfg, p, stall))
  {
    hide Items, Transcript, Next, Advances;
    NextBefore(cfg, 0, 0);
    ItemsNothing(cfg, PlaceOf(cfg, p), PlaceOf(cfg, p));
  }

  lemma SelectParametersKeeps(cfg: Config, p: Party, stall: bool)
    requires Ready(cfg, p) && p.state == Server(SelectParameters)
    ensures Kept(cfg, p, DoSelectParameters(cfg, p, stall))
  {
    hide Items, Transcript, Next, Advances;
    NextBefore(cfg, 0, 0);
    ItemsOne(cfg, 0);
    TranscriptStep(cfg, 0);
    if p.inbox.Some? && Next(cfg, 0) == 0 {
      ConsumeOk(cfg, p, 0);
    }
  }

  lemma SendServerHelloKeeps(cfg: Config, p: Party)
    requires Ready(cfg, p) && p.state == Server(SendServerHello)
    ensures Kept(cfg, p, DoServer(cfg, p, false))
  {
    hide Items, Transcript, Next, Advances;
    ItemsOne(cfg, 1);
    AddPlaceOk(cfg, p, 1);
  }

  lemma SendServerCertificateKeeps(cfg: Config, p: Party)
    requires Ready(cfg, p) && p.state == Server(SendServerCertificate)
    ensures Kept(cfg, p, DoSendServerCertificate(cfg, p))
  {
    hide Items, Transcript, Next, Advances;
    var q, r, t := AddThree(cfg, p, 2);
    assert r == AddIf(cfg, AddIf(cfg, p, cfg.certAuth, Certificate, true),
      cfg.certAuth && cfg.status, CertificateStatus, true);
  }

  lemma SendServerKeyExchangeKeeps(cfg: Config, p: Party, stall: bool)
    requires Ready(cfg, p) && p.state == Server(SendServerKeyExchange)
    ensures Kept(cfg, p, DoSendServerKeyExchange(cfg, p, stall))
  {
    hide Items, Transcript, Next, Advances;
    ItemsOne(cfg, 4);
    AddPlaceOk(cfg, p, 4);
  }

  /** CertificateRequest and ServerHelloDone, place by place. */
  lemma HelloDoneFlight(cfg: Config, p: Party) returns (r: Party)
    requires Ready(cfg, p) && p.state == Server(SendServerHelloDone)
    ensures p.inbox.None?
    ensures r == p.(transcript := r.transcript, flight := r.flight)
    ensures r.transcript == Transcript(cfg, 7) && r.flight == p.flight + Items(cfg, 5, 7)
    ensures DoSendServerHelloDone(cfg, p) == r.ToS(ReadClientCertificate).Waiting(Flush)
  {
    hide Items, Transcript, Next, Advances;
    NextBefore(cfg, 5, 6);
    var q, t;
    q, r, t := AddThree(cfg, p, 5);
    assert q == AddIf(cfg, p, p.certRequest, CertificateRequest, true);
    assert r == AddIf(cfg, q, true, ServerHelloDone, true);
  }

  lemma SendServerHelloDoneKeeps(cfg: Config, p: Party)
    requires Ready(cfg, p) && p.state == Server(SendServerHelloDone)
    ensures Kept(cfg, p, DoSendServerHelloDone(cfg, p))
  {
    hide Items, Transcript, Next, Advances, DoSendServerHelloDone, Honest, Expected;
    var r := HelloDoneFlight(cfg, p);
  }

  lemma ReadClientCertificateKeeps(cfg: Config, p: Party)
    requires Ready(cfg, p) && p.state == Server(ReadClientCertificate)
    ensures Kept(cfg, p, DoReadClientCertificate(cfg, p))
  {
    hide Items, Transcript, Next, Advances;
    NextBefore(cfg, 7, 8);
    ItemsOne(cfg, 7);
    TranscriptStep(cfg, 7);
    if p.inbox.Some? && Next(cfg, 7) == 7 {
      ConsumeOk(cfg, p, 7);
    }
  }

  lemma VerifyClientCertificateKeeps(cfg: Config, p: Party, stall: bool)
    requires Ready(cfg, p) && p.state == Server(VerifyClientCertificate)
    ensures Kept(cfg, p, DoVerifyClientCertificate(cfg, p, stall))
  {
    hide Items, Transcript, Next, Advances;
    ItemsNothing(cfg, PlaceOf(cfg, p), PlaceOf(cfg, p));
  }

  lemma ReadClientKeyExchangeKeeps(cfg: Config, p: Party, stall: bool)
    requires Ready(cfg, p) && p.state == Server(ReadClientKeyExchange)
    ensures Kept(cfg, p, DoReadClientKeyExchange(cfg, p, stall))
  {
    hide Items, Transcript, Next, Advances;
    NextBefore(cfg, 8, 8);
    ItemsOne(cfg, 8);
    TranscriptStep(cfg, 8);
    if p.inbox.Some? && Next(cfg, 8) == 8 {
      ConsumeOk(cfg, p, 8);
    }
  }

  lemma ReadClientCertificateVerifyKeeps(cfg: Config, p: Party)
    requires Ready(cfg, p) && p.state == Server(ReadClientCertificateVerify)
    ensures Kept(cfg, p, DoReadClientCertificateVerify(cfg, p))
  {
    hide Items, Transcript, Next, Advances;
    NextBefore(cfg, 9, 10);
    ItemsOne(cfg, 9);
    TranscriptStep(cfg, 9);
    if p.inbox.Some? && Next(cfg, 9) == 9 {
      ConsumeOk(cfg, p, 9);
    }
  }

  lemma ReadClientCcsKeeps(cfg: Config, p: Party)
    requires Ready(cfg, p) && p.state == Server(ReadClientCcs)
    ensures Kept(cfg, p, DoServer(cfg, p, false))
  {
    hide Items, Transcript, Next, Advances;
    NextBefore(cfg, ClientCcs(cfg), ClientCcs(cfg));
    ItemsNothing(cfg, PlaceOf(cfg, p), PlaceOf(cfg, p));
  }

  lemma ProcessClientCcsKeeps(cfg: Config, p: Party)
    requires Ready(cfg, p) && p.state == Server(ProcessClientCcs)
    ensures Kept(cfg, p, DoServer(cfg, p, false))
  {
    hide Items, Transcript, Next, Advances;
    ItemsNothing(cfg, PlaceOf(cfg, p), PlaceOf(cfg, p));
  }

  lemma ReadNextProtoKeeps(cfg: Config, p: Party)
    requires Ready(cfg, p) && p.state == Server(ReadNextProto)
    ensures Kept(cfg, p, DoServer(cfg, p, false))
  {
    hide Items, Transcript, Next, Advances;
    var k := if cfg.resume then 6 else 11;
    NextBefore(cfg, k, k + 2);
    ItemsOne(cfg, k);
    TranscriptStep(cfg, k);
    if p.inbox.Some? && Next(cfg, k) == k {
      ConsumeOk(cfg, p, k);
    }
  }

  lemma ReadChannelIdKeeps(cfg: Config, p: Party)
    requires Ready(cfg, p) && p.state == Server(ReadChannelId)
    ensures Kept(cfg, p, DoServer(cfg, p, false))
  {
    hide Items, Transcript, Next, Advances;
    var k := if cfg.resume then 7 else 12;
    NextBefore(cfg, k, k + 1);
    ItemsOne(cfg, k);
    TranscriptStep(cfg, k);
    if p.inbox.Some? && Next(cfg, k) == k {
      ConsumeOk(cfg, p, k);
    }
  }

  lemma ReadClientFinishedKeeps(cfg: Config, p: Party)
    requires Ready(cfg, p) && p.state == Server(ReadClientFinished)
    ensures Kept(cfg, p, DoReadClientFinished(cfg, p))
  {
    hide Items, Transcript, Next, Advances;
    var k := if cfg.resume then 8 else 13;
    NextBefore(cfg, k, k);
    ItemsOne(cfg, k);
    TranscriptStep(cfg, k);
    if p.inbox.Some? && Next(cfg, k) == k {
      ConsumeOk(cfg, p, k);
    }
  }

  /** NewSessionTicket, ChangeCipherSpec and Finished, place by place. */
  lemma LastFlight(cfg: Config, p: Party, k: nat) returns (t: Party)
    requires k == (if cfg.resume then 2 else 14) && p.transcript == Transcript(cfg, k)
    requires p.state == Server(SendServerFinished)
    ensures t.transcript == Transcript(cfg, k + 3) && t.flight == p.flight + Items(cfg, k, k + 3)
    ensures t == p.(transcript := t.transcript, flight := t.flight, writeKeys := p.writeKeys + 1,
      finished := p.finished + [true])
    ensures DoSendServerFinished(cfg, p) ==
      t.ToS(if cfg.resume then ReadClientCcs else FinishServerHandshake).Waiting(Flush)
  {
    hide Items, Transcript, ItemsAt, Advances;
    var q, r;
    q, r, t := AddThree(cfg, p, k);
    assert q == AddIf(cfg, p, cfg.ticket, NewSessionTicket, true);
    assert r == q.AddCcs();
    t := t.(finished := p.finished + [true]);
    assert t == AddFinished(cfg, r, true);
  }

  lemma SendServerFinishedKeeps(cfg: Config, p: Party)
    requires Ready(cfg, p) && p.state == Server(SendServerFinished)
    ensures Kept(cfg, p, DoSendServerFinished(cfg, p))
  {
    hide Items, Transcript, Next, AddIf, AddFinished, DoSendServerFinished, Advances;
    var k := if cfg.resume then 2 else 14;
    NextBefore(cfg, k, k + 1);
    var t := LastFlight(cfg, p, k);
  }

  lemma FinishServerHandshakeKeeps(cfg: Config, p: Party)
    requires Ready(cfg, p) && p.state == Server(FinishServerHandshake)
    ensures Kept(cfg, p, DoServer(cfg, p, false))
  {
    hide Items, Transcript, Next, Advances;
    ItemsNothing(cfg, PlaceOf(cfg, p), PlaceOf(cfg, p));
  }

  /** Whatever state the server is in. */
  lemma ServerKeeps(cfg: Config, p: Party, stall: bool)
    requires Ready(cfg, p) && p.state.Server? && !p.IsDone()
    ensures Kept(cfg, p, DoServer(cfg, p, stall))
  {
    hide Ready, Kept, DoReadClientHello, DoSelectCertificate, DoSelectParameters, DoSendServerCertificate,
      DoSendServerKeyExchange, DoSendServerHelloDone, DoReadClientCertificate, DoVerifyClientCertificate,
      DoReadClientKeyExchange, DoReadClientCertificateVerify, DoReadOptional, DoReadClientFinished,
      DoSendServerFinished, AddIf, Advances;
    match p.state.s
    case StartAccept => StartAcceptKeeps(cfg, p);
    case ReadClientHello => ReadClientHelloKeeps(cfg, p, stall);
    case SelectCertificate => SelectCertificateKeeps(cfg, p, stall);
    case SelectParameters => SelectParametersKeeps(cfg, p, stall);
    case SendServerHello => SendServerHelloKeeps(cfg, p);
    case SendServerCertificate => SendServerCertificateKeeps(cfg, p);
    case SendServerKeyExchange => SendServerKeyExchangeKeeps(cfg, p, stall);
    case SendServerHelloDone => SendServerHelloDoneKeeps(cfg, p);
    case ReadClientCertificate => ReadClientCertificateKeeps(cfg, p);
    case VerifyClientCertificate => VerifyClientCertificateKeeps(cfg, p, stall);
    case ReadClientKeyExchange => ReadClientKeyExchangeKeeps(cfg, p, stall);
    case ReadClientCertificateVerify => ReadClientCertificateVerifyKeeps(cfg, p);
    case ReadClientCcs => ReadClientCcsKeeps(cfg, p);
    case ProcessClientCcs => ProcessClientCcsKeeps(cfg, p);
    case ReadNextProto => ReadNextProtoKeeps(cfg, p);
    case ReadChannelId => ReadChannelIdKeeps(cfg, p);
    case ReadClientFinished => ReadClientFinishedKeeps(cfg, p);
    case SendServerFinished => SendServerFinishedKeeps(cfg, p);
    case FinishServerHandshake => FinishServerHandshakeKeeps(cfg, p);
  }
}
