/** What each state of the TLS 1.0 to 1.2 handshake machines does
    (BoringSSL/ssl/handshake_client.cc:427-1691, BoringSSL/ssl/handshake_server.cc:426-1535). */
module TlsSteps {
  import opened Wrappers

  datatype Tag =
    | ClientHello | ServerHello | Certificate | CertificateStatus | ServerKeyExchange
    | CertificateRequest | ServerHelloDone | ClientKeyExchange | CertificateVerify
    | NextProto | ChannelId | NewSessionTicket | Finished

  datatype Message = Message(tag: Tag, body: seq<byte>)

  /** What travels: a handshake message or a ChangeCipherSpec record. */
  datatype Item = Hs(m: Message) | Ccs

  /** What the two sides negotiated, what the callbacks and the cryptography answer, and what
      the bodies hold that the state machines do not look into. */
  datatype Config = Config(
    resume: bool,
    ticket: bool,
    certAuth: bool,
    requiresSke: bool,
    pskHint: bool,
    status: bool,
    wantCert: bool,
    needCert: bool,
    serverHasCert: bool,
    clientHasCert: bool,
    nextProto: bool,
    channelId: bool,
    trustsServer: bool,
    trustsClient: bool,
    body: (Tag, bool) -> seq<byte>,
    accepts: Message -> bool,
    hasChain: Message -> bool,
    mac: (seq<Message>, bool) -> seq<byte>,
    sign: seq<Message> -> seq<byte>)

  /** The server asks for a certificate only in a full handshake with a certificate cipher. */
  predicate AsksCert(cfg: Config) {
    !cfg.resume && cfg.wantCert && cfg.certAuth
  }

  /** Ciphers without certificates are the pre-shared key ones, which may send a hint. */
  predicate SendsSke(cfg: Config) {
    cfg.requiresSke || (!cfg.certAuth && cfg.pskHint)
  }

  datatype ClientState =
    | StartConnect | EnterEarlyData | ReadServerHello | ReadServerCertificate | ReadCertificateStatus
    | VerifyServerCertificate | ReadServerKeyExchange | ReadCertificateRequest | ReadServerHelloDone
    | SendClientCertificate | SendClientKeyExchange | SendClientCertificateVerify | SendClientFinished
    | FinishFlight | ReadSessionTicket | ProcessServerCcs | ReadServerFinished | FinishClientHandshake
    | ClientDone

  datatype ServerState =
    | StartAccept | ReadClientHello | SelectCertificate | SelectParameters | SendServerHello
    | SendServerCertificate | SendServerKeyExchange | SendServerHelloDone | ReadClientCertificate
    | VerifyClientCertificate | ReadClientKeyExchange | ReadClientCertificateVerify | ReadClientCcs
    | ProcessClientCcs | ReadNextProto | ReadChannelId | ReadClientFinished | SendServerFinished
    | FinishServerHandshake | ServerDone

  datatype State = Client(c: ClientState) | Server(s: ServerState)

  /** `ssl_hs_wait_t`, and `Async` for the callbacks that ask to be called again. */
  datatype Wait = Error | Ok | ReadMessage | ReadCcs | Flush | Async

  /** One side. `live` is whether the transcript still keeps its messages for signing; the keys
      count how often each direction changed; `finished` lists whose Finished was sent or
      verified, a server's as true. */
  datatype Party = Party(
    state: State,
    wait: Wait,
    transcript: seq<Message>,
    live: bool,
    inbox: Option<Message>,
    flight: seq<Item>,
    certRequest: bool,
    peerCert: bool,
    writeKeys: nat,
    readKeys: nat,
    finished: seq<bool>)
  {
    predicate IsDone() {
      state == Client(ClientDone) || state == Server(ServerDone)
    }

    /** What a signature over the transcript covers. */
    function Buffer(): seq<Message> {
      if live then transcript else []
    }

    function ToC(next: ClientState): Party {
      this.(state := Client(next), wait := Ok)
    }

    function ToS(next: ServerState): Party {
      this.(state := Server(next), wait := Ok)
    }

    function Waiting(w: Wait): Party {
      this.(wait := w)
    }

    /** A message is hashed as it is added to the flight. */
    function Add(m: Message): Party {
      this.(flight := flight + [Hs(m)], transcript := transcript + [m])
    }

    /** ChangeCipherSpec, and the key change that goes with it. */
    function AddCcs(): Party {
      this.(flight := flight + [Ccs], writeKeys := writeKeys + 1)
    }

    /** The current message is hashed and released. */
    function Consume(): Party
      requires inbox.Some?
    {
      this.(transcript := transcript + [inbox.value], inbox := None)
    }

    function FreeBuffer(): Party {
      this.(live := false)
    }
  }

  const CLIENT_START := Party(Client(StartConnect), Ok, [], true, None, [], false, false, 0, 0, [])
  const SERVER_START := Party(Server(StartAccept), Ok, [], true, None, [], false, false, 0, 0, [])

  function Fail(p: Party): Party {
    p.(wait := Error)
  }

  /** `ssl_get_finished`: the MAC is over the transcript before the message itself. */
  predicate FinishedOk(cfg: Config, p: Party, fromServer: bool)
    requires p.inbox.Some?
  {
    p.inbox.value.tag == Finished && p.inbox.value.body == cfg.mac(p.transcript, fromServer)
  }

  function AddFinished(cfg: Config, p: Party, fromServer: bool): (q: Party)
    ensures q == p.(flight := q.flight, transcript := q.transcript, finished := p.finished + [fromServer])
    ensures |q.flight| == |p.flight| + 1
  {
    p.Add(Message(Finished, cfg.mac(p.transcript, fromServer))).(finished := p.finished + [fromServer])
  }

  /** The other side's Finished has been checked. */
  function TakeFinished(p: Party, fromServer: bool): Party
    requires p.inbox.Some?
  {
    p.Consume().(finished := p.finished + [fromServer])
  }

  /** No ChangeCipherSpec and no Finished. */
  predicate Plain(items: seq<Item>) {
    forall i :: 0 <= i < |items| ==> items[i].Hs? && items[i].m.tag != Finished
  }

  /** Messages, none of them a Finished, are added to the flight and hashed, if anything. */
  predicate Adds(p: Party, q: Party) {
    && q.state.Client? == p.state.Client? && q.writeKeys == p.writeKeys
    && p.transcript <= q.transcript && p.flight <= q.flight && Plain(q.flight[|p.flight|..])
  }

  /** The current message is hashed, if anything. */
  predicate Reads(p: Party, q: Party) {
    && q.state.Client? == p.state.Client? && q.writeKeys == p.writeKeys && q.flight == p.flight
    && (q.transcript == p.transcript || (p.inbox.Some? && q.transcript == p.transcript + [p.inbox.value]))
  }

  function AddIf(cfg: Config, p: Party, send: bool, tag: Tag, fromServer: bool): (q: Party)
    ensures q == p.(flight := q.flight, transcript := q.transcript) && |q.flight| <= |p.flight| + 1
  {
    if send then p.Add(Message(tag, cfg.body(tag, fromServer))) else p
  }

  // ----- A rank for states: resumption jumps backwards in the enumeration --------------

  function ClientRank(resume: bool, c: ClientState): nat {
    match c
    case StartConnect => 18
    case EnterEarlyData => 17
    case ReadServerHello => 16
    case ReadServerCertificate => 15
    case ReadCertificateStatus => 14
    case VerifyServerCertificate => 13
    case ReadServerKeyExchange => 12
    case ReadCertificateRequest => 11
    case ReadServerHelloDone => 10
    case SendClientCertificate => 9
    case SendClientKeyExchange => 8
    case SendClientCertificateVerify => 7
    case SendClientFinished => 6
    case FinishFlight => 5
    case ReadSessionTicket => if resume then 9 else 4
    case ProcessServerCcs => if resume then 8 else 3
    case ReadServerFinished => if resume then 7 else 2
    case FinishClientHandshake => 1
    case ClientDone => 0
  }

  function ServerRank(resume: bool, s: ServerState): nat {
    match s
    case StartAccept => 19
    case ReadClientHello => 18
    case SelectCertificate => 17
    case SelectParameters => 16
    case SendServerHello => 15
    case SendServerCertificate => 14
    case SendServerKeyExchange => 13
    case SendServerHelloDone => 12
    case ReadClientCertificate => 11
    case VerifyClientCertificate => 10
    case ReadClientKeyExchange => 9
    case ReadClientCertificateVerify => 8
    case ReadClientCcs => 7
    case ProcessClientCcs => 6
    case ReadNextProto => 5
    case ReadChannelId => 4
    case ReadClientFinished => 3
    case SendServerFinished => if resume then 14 else 2
    case FinishServerHandshake => 1
    case ServerDone => 0
  }

  function Rank(resume: bool, state: State): nat {
    match state
    case Client(c) => ClientRank(resume, c)
    case Server(s) => ServerRank(resume, s)
  }

  /** The state completes, which lowers the rank, or returns with nothing added or consumed. */
  predicate Advances(cfg: Config, p: Party, q: Party) {
    if q.state == p.state then
      q == p.(wait := q.wait) && (q.wait in {Error, Async} || (q.wait == ReadMessage && p.inbox.None?))
    else Rank(cfg.resume, q.state) < Rank(cfg.resume, p.state) && |q.flight| <= |p.flight| + 4
  }

  // ----- Client ----------------------------------------------------------------

  /** A state that waits for one message of a given type and then moves on. */
  predicate Wrong(cfg: Config, p: Party, tag: Tag)
    requires p.inbox.Some?
  {
    p.inbox.value.tag != tag || !cfg.accepts(p.inbox.value)
  }

  function DoReadServerHello(cfg: Config, p: Party): (q: Party)
    requires p.state == Client(ReadServerHello)
    ensures Advances(cfg, p, q)
    ensures Reads(p, q)
    ensures q.wait != Async
  {
    if p.inbox.None? then p.Waiting(ReadMessage)
    else if Wrong(cfg, p, ServerHello) then Fail(p)
    else
      var q := p.Consume();
      var r := if cfg.resume || !cfg.certAuth then q.FreeBuffer() else q;
      r.ToC(if cfg.resume then ReadSessionTicket else ReadServerCertificate)
  }

  function DoReadServerCertificate(cfg: Config, p: Party): (q: Party)
    requires p.state == Client(ReadServerCertificate)
    ensures Advances(cfg, p, q)
    ensures Reads(p, q)
    ensures q.wait != Async
  {
    if !cfg.certAuth then p.ToC(ReadCertificateStatus)
    else if p.inbox.None? then p.Waiting(ReadMessage)
    else if Wrong(cfg, p, Certificate) || !cfg.hasChain(p.inbox.value) then Fail(p)
    else p.Consume().ToC(ReadCertificateStatus)
  }

  /** A server that announced a status may still leave it out. */
  function DoReadCertificateStatus(cfg: Config, p: Party): (q: Party)
    requires p.state == Client(ReadCertificateStatus)
    ensures Advances(cfg, p, q)
    ensures Reads(p, q)
    ensures q.wait != Async
  {
    if !cfg.status then p.ToC(VerifyServerCertificate)
    else if p.inbox.None? then p.Waiting(ReadMessage)
    else if p.inbox.value.tag != CertificateStatus then p.ToC(VerifyServerCertificate)
    else if Wrong(cfg, p, CertificateStatus) then Fail(p)
    else p.Consume().ToC(VerifyServerCertificate)
  }

  function DoVerifyServerCertificate(cfg: Config, p: Party, stall: bool): (q: Party)
    requires p.state == Client(VerifyServerCertificate)
    ensures Advances(cfg, p, q)
    ensures Reads(p, q)
    ensures !stall ==> q.wait != Async
  {
    if !cfg.certAuth then p.ToC(ReadServerKeyExchange)
    else if stall then p.Waiting(Async)
    else if !cfg.trustsServer then Fail(p)
    else p.ToC(ReadServerKeyExchange)
  }

  function DoReadServerKeyExchange(cfg: Config, p: Party): (q: Party)
    requires p.state == Client(ReadServerKeyExchange)
    ensures Advances(cfg, p, q)
    ensures Reads(p, q)
    ensures q.wait != Async
  {
    if p.inbox.None? then p.Waiting(ReadMessage)
    else if p.inbox.value.tag != ServerKeyExchange then
      if cfg.requiresSke then Fail(p) else p.ToC(ReadCertificateRequest)
    else if (cfg.certAuth && !cfg.requiresSke) || Wrong(cfg, p, ServerKeyExchange) then Fail(p)
    else p.Consume().ToC(ReadCertificateRequest)
  }

  function DoReadCertificateRequest(cfg: Config, p: Party): (q: Party)
    requires p.state == Client(ReadCertificateRequest)
    ensures Advances(cfg, p, q)
    ensures Reads(p, q)
    ensures q.wait != Async
  {
    if !cfg.certAuth then p.ToC(ReadServerHelloDone)
    else if p.inbox.None? then p.Waiting(ReadMessage)
    else if p.inbox.value.tag == ServerHelloDone then p.FreeBuffer().ToC(ReadServerHelloDone)
    else if Wrong(cfg, p, CertificateRequest) then Fail(p)
    else p.Consume().(certRequest := true).ToC(ReadServerHelloDone)
  }

  function DoReadServerHelloDone(cfg: Config, p: Party): (q: Party)
    requires p.state == Client(ReadServerHelloDone)
    ensures Advances(cfg, p, q)
    ensures Reads(p, q)
    ensures q.wait != Async
  {
    if p.inbox.None? then p.Waiting(ReadMessage)
    else if Wrong(cfg, p, ServerHelloDone) then Fail(p)
    else p.Consume().ToC(SendClientCertificate)
  }

  function DoSendClientCertificate(cfg: Config, p: Party, stall: bool): (q: Party)
    requires p.state == Client(SendClientCertificate)
    ensures Advances(cfg, p, q)
    ensures !stall ==> q.wait != Async
  {
    if !p.certRequest then p.ToC(SendClientKeyExchange)
    else if stall then p.Waiting(Async)
    else
      var q := if cfg.clientHasCert then p else p.FreeBuffer();
      AddIf(cfg, q, true, Certificate, false).ToC(SendClientKeyExchange)
  }

  function DoSendClientCertificateVerify(cfg: Config, p: Party, stall: bool): (q: Party)
    requires p.state == Client(SendClientCertificateVerify)
    ensures Advances(cfg, p, q)
    ensures !stall ==> q.wait != Async
  {
    if !p.certRequest || !cfg.clientHasCert then p.ToC(SendClientFinished)
    else if stall then p.Waiting(Async)
    else p.Add(Message(CertificateVerify, cfg.sign(p.Buffer()))).FreeBuffer().ToC(SendClientFinished)
  }

  function DoSendClientFinished(cfg: Config, p: Party, stall: bool): (q: Party)
    requires p.state == Client(SendClientFinished)
    ensures Advances(cfg, p, q)
    ensures !stall ==> q.wait != Async
  {
    if cfg.channelId && stall then p.Waiting(Async)
    else
      var q := AddIf(cfg, p.AddCcs(), cfg.nextProto, NextProto, false);
      var r := AddIf(cfg, q, cfg.channelId, ChannelId, false);
      AddFinished(cfg, r, false).ToC(FinishFlight).Waiting(Flush)
  }

  function DoReadSessionTicket(cfg: Config, p: Party): (q: Party)
    requires p.state == Client(ReadSessionTicket)
    ensures Advances(cfg, p, q)
    ensures Reads(p, q)
    ensures q.wait != Async
  {
    if !cfg.ticket then p.ToC(ProcessServerCcs).Waiting(ReadCcs)
    else if p.inbox.None? then p.Waiting(ReadMessage)
    else if Wrong(cfg, p, NewSessionTicket) then Fail(p)
    else p.Consume().ToC(ProcessServerCcs).Waiting(ReadCcs)
  }

  function DoReadServerFinished(cfg: Config, p: Party): (q: Party)
    requires p.state == Client(ReadServerFinished)
    ensures Advances(cfg, p, q)
    ensures Reads(p, q)
    ensures q.wait != Async
  {
    if p.inbox.None? then p.Waiting(ReadMessage)
    else if !FinishedOk(cfg, p, true) then Fail(p)
    else TakeFinished(p, true).ToC(if cfg.resume then SendClientFinished else FinishClientHandshake)
  }

  function DoClient(cfg: Config, p: Party, stall: bool): (q: Party)
    requires p.state.Client?
  {
    match p.state.c
    case StartConnect => AddIf(cfg, p, true, ClientHello, false).ToC(EnterEarlyData).Waiting(Flush)
    case EnterEarlyData => p.ToC(ReadServerHello)
    case ReadServerHello => DoReadServerHello(cfg, p)
    case ReadServerCertificate => DoReadServerCertificate(cfg, p)
    case ReadCertificateStatus => DoReadCertificateStatus(cfg, p)
    case VerifyServerCertificate => DoVerifyServerCertificate(cfg, p, stall)
    case ReadServerKeyExchange => DoReadServerKeyExchange(cfg, p)
    case ReadCertificateRequest => DoReadCertificateRequest(cfg, p)
    case ReadServerHelloDone => DoReadServerHelloDone(cfg, p)
    case SendClientCertificate => DoSendClientCertificate(cfg, p, stall)
    case SendClientKeyExchange => AddIf(cfg, p, true, ClientKeyExchange, false).ToC(SendClientCertificateVerify)
    case SendClientCertificateVerify => DoSendClientCertificateVerify(cfg, p, stall)
    case SendClientFinished => DoSendClientFinished(cfg, p, stall)
    case FinishFlight => p.ToC(if cfg.resume then FinishClientHandshake else ReadSessionTicket)
    case ReadSessionTicket => DoReadSessionTicket(cfg, p)
    case ProcessServerCcs => p.(readKeys := p.readKeys + 1).ToC(ReadServerFinished)
    case ReadServerFinished => DoReadServerFinished(cfg, p)
    case FinishClientHandshake => p.ToC(ClientDone)
    case ClientDone => p
  }

  // ----- Server ----------------------------------------------------------------

  /** The ClientHello stays the current message over three states. */
  function DoReadClientHello(cfg: Config, p: Party, stall: bool): (q: Party)
    requires p.state == Server(ReadClientHello)
    ensures Advances(cfg, p, q)
    ensures Reads(p, q)
    ensures !stall ==> q.wait != Async
  {
    if p.inbox.None? then p.Waiting(ReadMessage)
    else if Wrong(cfg, p, ClientHello) then Fail(p)
    else if stall then p.Waiting(Async)
    else p.ToS(SelectCertificate)
  }

  function DoSelectCertificate(cfg: Config, p: Party, stall: bool): (q: Party)
    requires p.state == Server(SelectCertificate)
    ensures Advances(cfg, p, q)
    ensures Reads(p, q)
    ensures !stall ==> q.wait != Async
  {
    if p.inbox.None? then p.Waiting(ReadMessage)
    else if stall then p.Waiting(Async)
    else p.ToS(SelectParameters)
  }

  function DoSelectParameters(cfg: Config, p: Party, stall: bool): (q: Party)
    requires p.state == Server(SelectParameters)
    ensures Advances(cfg, p, q)
    ensures Reads(p, q)
    ensures !stall ==> q.wait != Async
  {
    if p.inbox.None? then p.Waiting(ReadMessage)
    else if stall then p.Waiting(Async)
    else
      var q := p.Consume().(certRequest := AsksCert(cfg));
      (if AsksCert(cfg) then q else q.FreeBuffer()).ToS(SendServerHello)
  }

  function DoSendServerCertificate(cfg: Config, p: Party): (q: Party)
    requires p.state == Server(SendServerCertificate)
    ensures Advances(cfg, p, q)
    ensures q.wait != Async
  {
    if cfg.certAuth && !cfg.serverHasCert then Fail(p)
    else
      var q := AddIf(cfg, p, cfg.certAuth, Certificate, true);
      AddIf(cfg, q, cfg.certAuth && cfg.status, CertificateStatus, true).ToS(SendServerKeyExchange)
  }

  function DoSendServerKeyExchange(cfg: Config, p: Party, stall: bool): (q: Party)
    requires p.state == Server(SendServerKeyExchange)
    ensures Advances(cfg, p, q)
    ensures !stall ==> q.wait != Async
  {
    if !SendsSke(cfg) then p.ToS(SendServerHelloDone)
    else if cfg.certAuth && stall then p.Waiting(Async)
    else AddIf(cfg, p, true, ServerKeyExchange, true).ToS(SendServerHelloDone)
  }

  function DoSendServerHelloDone(cfg: Config, p: Party): (q: Party)
    requires p.state == Server(SendServerHelloDone)
    ensures Advances(cfg, p, q)
    ensures q.wait != Async
  {
    var q := AddIf(cfg, p, p.certRequest, CertificateRequest, true);
    AddIf(cfg, q, true, ServerHelloDone, true).ToS(ReadClientCertificate).Waiting(Flush)
  }

  function DoReadClientCertificate(cfg: Config, p: Party): (q: Party)
    requires p.state == Server(ReadClientCertificate)
    ensures Advances(cfg, p, q)
    ensures Reads(p, q)
    ensures q.wait != Async
  {
    if !p.certRequest then p.ToS(VerifyClientCertificate)
    else if p.inbox.None? then p.Waiting(ReadMessage)
    else if Wrong(cfg, p, Certificate) then Fail(p)
    else if cfg.hasChain(p.inbox.value) then p.Consume().(peerCert := true).ToS(VerifyClientCertificate)
    else if cfg.needCert then Fail(p)
    else p.Consume().FreeBuffer().ToS(VerifyClientCertificate)
  }

  function DoVerifyClientCertificate(cfg: Config, p: Party, stall: bool): (q: Party)
    requires p.state == Server(VerifyClientCertificate)
    ensures Advances(cfg, p, q)
    ensures Reads(p, q)
    ensures !stall ==> q.wait != Async
  {
    if !p.peerCert then p.ToS(ReadClientKeyExchange)
    else if stall then p.Waiting(Async)
    else if !cfg.trustsClient then Fail(p)
    else p.ToS(ReadClientKeyExchange)
  }

  /** Only an RSA premaster is decrypted by the private key, which may take several calls. */
  function DoReadClientKeyExchange(cfg: Config, p: Party, stall: bool): (q: Party)
    requires p.state == Server(ReadClientKeyExchange)
    ensures Advances(cfg, p, q)
    ensures Reads(p, q)
    ensures !stall ==> q.wait != Async
  {
    if p.inbox.None? then p.Waiting(ReadMessage)
    else if Wrong(cfg, p, ClientKeyExchange) then Fail(p)
    else if cfg.certAuth && !cfg.requiresSke && stall then p.Waiting(Async)
    else p.Consume().ToS(ReadClientCertificateVerify)
  }

  function DoReadClientCertificateVerify(cfg: Config, p: Party): (q: Party)
    requires p.state == Server(ReadClientCertificateVerify)
    ensures Advances(cfg, p, q)
    ensures Reads(p, q)
    ensures q.wait != Async
  {
    if !p.peerCert then p.FreeBuffer().ToS(ReadClientCcs)
    else if p.inbox.None? then p.Waiting(ReadMessage)
    else if p.inbox.value.tag != CertificateVerify || p.inbox.value.body != cfg.sign(p.Buffer()) then Fail(p)
    else p.FreeBuffer().Consume().ToS(ReadClientCcs)
  }

  function DoReadOptional(cfg: Config, p: Party, expected: bool, tag: Tag, next: ServerState): (q: Party)
    requires p.state.Server? && ServerRank(cfg.resume, next) < ServerRank(cfg.resume, p.state.s)
    ensures Advances(cfg, p, q) && q.wait != Async
    ensures Reads(p, q)
  {
    if !expected then p.ToS(next)
    else if p.inbox.None? then p.Waiting(ReadMessage)
    else if Wrong(cfg, p, tag) then Fail(p)
    else p.Consume().ToS(next)
  }

  function DoReadClientFinished(cfg: Config, p: Party): (q: Party)
    requires p.state == Server(ReadClientFinished)
    ensures Advances(cfg, p, q)
    ensures Reads(p, q)
    ensures q.wait != Async
  {
    if p.inbox.None? then p.Waiting(ReadMessage)
    else if !FinishedOk(cfg, p, false) then Fail(p)
    else TakeFinished(p, false).ToS(if cfg.resume then FinishServerHandshake else SendServerFinished)
  }

  function DoSendServerFinished(cfg: Config, p: Party): (q: Party)
    requires p.state == Server(SendServerFinished)
    ensures Advances(cfg, p, q)
    ensures q.wait != Async
  {
    var q := AddIf(cfg, p, cfg.ticket, NewSessionTicket, true).AddCcs();
    AddFinished(cfg, q, true).ToS(if cfg.resume then ReadClientCcs else FinishServerHandshake).Waiting(Flush)
  }

  function DoServer(cfg: Config, p: Party, stall: bool): (q: Party)
    requires p.state.Server?
  {
    match p.state.s
    case StartAccept => p.ToS(ReadClientHello)
    case ReadClientHello => DoReadClientHello(cfg, p, stall)
    case SelectCertificate => DoSelectCertificate(cfg, p, stall)
    case SelectParameters => DoSelectParameters(cfg, p, stall)
    case SendServerHello =>
      AddIf(cfg, p, true, ServerHello, true).ToS(if cfg.resume then SendServerFinished else SendServerCertificate)
    case SendServerCertificate => DoSendServerCertificate(cfg, p)
    case SendServerKeyExchange => DoSendServerKeyExchange(cfg, p, stall)
    case SendServerHelloDone => DoSendServerHelloDone(cfg, p)
    case ReadClientCertificate => DoReadClientCertificate(cfg, p)
    case VerifyClientCertificate => DoVerifyClientCertificate(cfg, p, stall)
    case ReadClientKeyExchange => DoReadClientKeyExchange(cfg, p, stall)
    case ReadClientCertificateVerify => DoReadClientCertificateVerify(cfg, p)
    case ReadClientCcs => p.ToS(ProcessClientCcs).Waiting(ReadCcs)
    case ProcessClientCcs => p.(readKeys := p.readKeys + 1).ToS(ReadNextProto)
    case ReadNextProto => DoReadOptional(cfg, p, cfg.nextProto, NextProto, ReadChannelId)
    case ReadChannelId => DoReadOptional(cfg, p, cfg.channelId, ChannelId, ReadClientFinished)
    case ReadClientFinished => DoReadClientFinished(cfg, p)
    case SendServerFinished => DoSendServerFinished(cfg, p)
    case FinishServerHandshake => p.ToS(ServerDone)
    case ServerDone => p
  }

  function Do(cfg: Config, p: Party, stall: bool): Party {
    if p.state.Client? then DoClient(cfg, p, stall) else DoServer(cfg, p, stall)
  }

  lemma ClientAdvances(cfg: Config, p: Party, stall: bool)
    requires p.state.Client? && p.state.c != ClientDone
    ensures Advances(cfg, p, DoClient(cfg, p, stall))
    ensures !stall ==> DoClient(cfg, p, stall).wait != Async
  {
    hide AddIf, DoReadServerHello, DoReadServerCertificate, DoReadCertificateStatus, DoVerifyServerCertificate,
      DoReadServerKeyExchange, DoReadCertificateRequest, DoReadServerHelloDone, DoSendClientCertificate,
      DoSendClientCertificateVerify, DoSendClientFinished, DoReadSessionTicket, DoReadServerFinished;
  }

  lemma ServerAdvances(cfg: Config, p: Party, stall: bool)
    requires p.state.Server? && p.state.s != ServerDone
    ensures Advances(cfg, p, DoServer(cfg, p, stall))
    ensures !stall ==> DoServer(cfg, p, stall).wait != Async
  {
    hide AddIf, DoReadClientHello, DoSelectCertificate, DoSelectParameters, DoSendServerCertificate,
      DoSendServerKeyExchange, DoSendServerHelloDone, DoReadClientCertificate, DoVerifyClientCertificate,
      DoReadClientKeyExchange, DoReadClientCertificateVerify, DoReadOptional, DoReadClientFinished,
      DoSendServerFinished;
  }

  /** Whatever the other side sent, a state completes, which lowers its rank, or it has not added
      or consumed anything. */
  lemma DoAdvances(cfg: Config, p: Party, stall: bool)
    requires !p.IsDone()
    ensures Advances(cfg, p, Do(cfg, p, stall))
    ensures !stall ==> Do(cfg, p, stall).wait != Async
  {
    hide Advances, DoClient, DoServer;
    if p.state.Client? {
      ClientAdvances(cfg, p, stall);
    } else {
      ServerAdvances(cfg, p, stall);
    }
  }

  // ----- The driver --------------------------------------------------------------

  datatype Turned = Turned(p: Party, input: seq<Item>, sent: seq<Item>)

  /** One turn of `ssl_run_handshake`: settle what the machine waits for, or run its state.
      `stall` is a transport or a callback that is not ready. */
  function Turn(cfg: Config, p: Party, input: seq<Item>, stall: bool): Turned {
    match p.wait
    case Error => Turned(p, input, [])
    case Ok => Turned(if p.IsDone() then p else Do(cfg, p, stall), input, [])
    case Async => Turned(p.Waiting(Ok), input, [])
    case Flush =>
      if stall then Turned(p, input, []) else Turned(p.(flight := []).Waiting(Ok), input, p.flight)
    case ReadMessage =>
      if stall || input == [] then Turned(p, input, [])
      else if input[0].Hs? then Turned(p.(inbox := Some(input[0].m)).Waiting(Ok), input[1..], [])
      else Turned(Fail(p), input[1..], [])
    case ReadCcs =>
      if stall || input == [] then Turned(p, input, [])
      else if input[0].Ccs? then Turned(p.Waiting(Ok), input[1..], [])
      else Turned(Fail(p), input[1..], [])
  }
}
