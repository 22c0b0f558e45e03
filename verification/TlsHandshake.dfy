/** The handshake object, whose states update it in place, and the driver that runs it
    (BoringSSL/ssl/handshake.cc:372-545, BoringSSL/ssl/handshake_client.cc:427-1775,
    BoringSSL/ssl/handshake_server.cc:426-1619). */
module TlsHandshake {
  import opened Wrappers
  import opened TlsSteps
  import opened TlsProgress
  import W = TlsWholeRun

  /** The transport: what has arrived or will, and what was sent. */
  class Wire {
    var incoming: seq<Item>
    var outgoing: seq<Item>

    constructor (incoming: seq<Item>)
      ensures this.incoming == incoming && outgoing == []
    {
      this.incoming, outgoing := incoming, [];
    }
  }

  datatype Outcome = Complete | Blocked | Failed

  class SslHandshake {
    const cfg: Config
    var state: State
    var wait: Wait
    var transcript: seq<Message>
    var live: bool
    var inbox: Option<Message>
    var flight: seq<Item>
    var certRequest: bool
    var peerCert: bool
    var writeKeys: nat
    var readKeys: nat
    var finished: seq<bool>

    ghost function Now(): Party
      reads this
    {
      Party(state, wait, transcript, live, inbox, flight, certRequest, peerCert, writeKeys, readKeys, finished)
    }

    /** A state that returns `ret` has done what `q` says; after an error nothing is promised. */
    ghost predicate Did(ret: Wait, q: Party)
      reads this
    {
      ret == q.wait && (ret != Error ==> Now() == q.(wait := wait))
    }

    constructor (cfg: Config, server: bool)
      ensures this.cfg == cfg && Now() == if server then SERVER_START else CLIENT_START
    {
      this.cfg := cfg;
      state := if server then Server(StartAccept) else Client(StartConnect);
      wait, transcript, live, inbox, flight := Ok, [], true, None, [];
      certRequest, peerCert, writeKeys, readKeys, finished := false, false, 0, 0, [];
    }

    // ----- What the states use ------------------------------------------------------

    method AddMessage(m: Message)
      modifies this`flight, this`transcript
      ensures Now() == old(Now()).Add(m)
    {
      flight := flight + [Hs(m)];
      transcript := transcript + [m];
    }

    method AddIf(send: bool, tag: Tag, fromServer: bool)
      modifies this`flight, this`transcript
      ensures Now() == TlsSteps.AddIf(cfg, old(Now()), send, tag, fromServer)
    {
      if send {
        AddMessage(Message(tag, cfg.body(tag, fromServer)));
      }
    }

    method AddChangeCipherSpec()
      modifies this`flight, this`writeKeys
      ensures Now() == old(Now()).AddCcs()
    {
      flight := flight + [Ccs];
      writeKeys := writeKeys + 1;
    }

    /** `ssl_hash_message` and `next_message`. */
    method TakeMessage()
      requires inbox.Some?
      modifies this`transcript, this`inbox
      ensures Now() == old(Now()).Consume()
    {
      transcript := transcript + [inbox.value];
      inbox := None;
    }

    method FreeBuffer()
      modifies this`live
      ensures Now() == old(Now()).FreeBuffer()
    {
      live := false;
    }

    /** `ssl3_send_finished`. */
    method SendFinished(fromServer: bool)
      modifies this`flight, this`transcript, this`finished
      ensures Now() == AddFinished(cfg, old(Now()), fromServer)
    {
      var mac := cfg.mac(transcript, fromServer);
      AddMessage(Message(Finished, mac));
      finished := finished + [fromServer];
    }

    /** `ssl_get_finished`: the MAC is computed before the message is hashed. */
    method GetFinished(fromServer: bool) returns (ret: Wait)
      modifies this`transcript, this`inbox, this`finished
      ensures old(inbox).None? ==> ret == ReadMessage && Now() == old(Now())
      ensures old(inbox).Some? ==> ret == if FinishedOk(cfg, old(Now()), fromServer) then Ok else Error
      ensures ret == Ok ==> old(inbox).Some? && Now() == TakeFinished(old(Now()), fromServer)
    {
      if inbox.None? {
        return ReadMessage;
      }
      var msg := inbox.value;
      if msg.tag != Finished {
        return Error;
      }
      var mac := cfg.mac(transcript, fromServer);
      if msg.body != mac {
        TakeMessage();
        return Error;
      }
      TakeMessage();
      finished := finished + [fromServer];
      return Ok;
    }

    // ----- Client ------------------------------------------------------------------

    method DoStartConnect() returns (ret: Wait)
      requires state == Client(StartConnect)
      modifies this
      ensures Did(ret, TlsSteps.DoClient(cfg, old(Now()), false)) && wait == old(wait)
    {
      hide Advances;
      AddIf(true, ClientHello, false);
      state := Client(EnterEarlyData);
      return Flush;
    }

    method DoEnterEarlyData() returns (ret: Wait)
      requires state == Client(EnterEarlyData)
      modifies this
      ensures Did(ret, TlsSteps.DoClient(cfg, old(Now()), false)) && wait == old(wait)
    {
      hide Advances;
      state := Client(ReadServerHello);
      return Ok;
    }

    method DoReadServerHello() returns (ret: Wait)
      requires state == Client(ReadServerHello)
      modifies this
      ensures Did(ret, TlsSteps.DoReadServerHello(cfg, old(Now()))) && wait == old(wait)
    {
      hide Advances;
      if inbox.None? {
        return ReadMessage;
      }
      if inbox.value.tag != ServerHello || !cfg.accepts(inbox.value) {
        return Error;
      }
      TakeMessage();
      if cfg.resume || !cfg.certAuth {
        FreeBuffer();
      }
      if cfg.resume {
        state := Client(ReadSessionTicket);
      } else {
        state := Client(ReadServerCertificate);
      }
      return Ok;
    }

    method DoReadServerCertificate() returns (ret: Wait)
      requires state == Client(ReadServerCertificate)
      modifies this
      ensures Did(ret, TlsSteps.DoReadServerCertificate(cfg, old(Now()))) && wait == old(wait)
    {
      hide Advances;
      if !cfg.certAuth {
        state := Client(ReadCertificateStatus);
        return Ok;
      }
      if inbox.None? {
        return ReadMessage;
      }
      if inbox.value.tag != Certificate || !cfg.accepts(inbox.value) {
        return Error;
      }
      var msg := inbox.value;
      TakeMessage();
      if !cfg.hasChain(msg) {
        return Error;
      }
      state := Client(ReadCertificateStatus);
      return Ok;
    }

    method DoReadCertificateStatus() returns (ret: Wait)
      requires state == Client(ReadCertificateStatus)
      modifies this
      ensures Did(ret, TlsSteps.DoReadCertificateStatus(cfg, old(Now()))) && wait == old(wait)
    {
      hide Advances;
      if !cfg.status {
        state := Client(VerifyServerCertificate);
        return Ok;
      }
      if inbox.None? {
        return ReadMessage;
      }
      if inbox.value.tag != CertificateStatus {
        // The server may have changed its mind.
        state := Client(VerifyServerCertificate);
        return Ok;
      }
      if inbox.value.tag != CertificateStatus || !cfg.accepts(inbox.value) {
        return Error;
      }
      TakeMessage();
      state := Client(VerifyServerCertificate);
      return Ok;
    }

    method DoVerifyServerCertificate() returns (ret: Wait, ghost stall: bool)
      requires state == Client(VerifyServerCertificate)
      modifies this
      ensures Did(ret, TlsSteps.DoVerifyServerCertificate(cfg, old(Now()), stall)) && wait == old(wait)
    {
      hide Advances;
      stall := false;
      if !cfg.certAuth {
        state := Client(ReadServerKeyExchange);
        return Ok, stall;
      }
      var retry: bool := *;
      stall := retry;
      if retry {
        return Async, stall;
      }
      if !cfg.trustsServer {
        return Error, stall;
      }
      state := Client(ReadServerKeyExchange);
      return Ok, stall;
    }

    method DoReadServerKeyExchange() returns (ret: Wait)
      requires state == Client(ReadServerKeyExchange)
      modifies this
      ensures Did(ret, TlsSteps.DoReadServerKeyExchange(cfg, old(Now()))) && wait == old(wait)
    {
      hide Advances;
      if inbox.None? {
        return ReadMessage;
      }
      if inbox.value.tag != ServerKeyExchange {
        if cfg.requiresSke {
          return Error;
        }
        state := Client(ReadCertificateRequest);
        return Ok;
      }
      if (cfg.certAuth && !cfg.requiresSke) || !cfg.accepts(inbox.value) {
        return Error;
      }
      TakeMessage();
      state := Client(ReadCertificateRequest);
      return Ok;
    }

    method DoReadCertificateRequest() returns (ret: Wait)
      requires state == Client(ReadCertificateRequest)
      modifies this
      ensures Did(ret, TlsSteps.DoReadCertificateRequest(cfg, old(Now()))) && wait == old(wait)
    {
      hide Advances;
      if !cfg.certAuth {
        state := Client(ReadServerHelloDone);
        return Ok;
      }
      if inbox.None? {
        return ReadMessage;
      }
      if inbox.value.tag == ServerHelloDone {
        FreeBuffer();
        state := Client(ReadServerHelloDone);
        return Ok;
      }
      if inbox.value.tag != CertificateRequest || !cfg.accepts(inbox.value) {
        return Error;
      }
      TakeMessage();
      certRequest := true;
      state := Client(ReadServerHelloDone);
      return Ok;
    }

    method DoReadServerHelloDone() returns (ret: Wait)
      requires state == Client(ReadServerHelloDone)
      modifies this
      ensures Did(ret, TlsSteps.DoReadServerHelloDone(cfg, old(Now()))) && wait == old(wait)
    {
      hide Advances;
      if inbox.None? {
        return ReadMessage;
      }
      if inbox.value.tag != ServerHelloDone || !cfg.accepts(inbox.value) {
        return Error;
      }
      TakeMessage();
      state := Client(SendClientCertificate);
      return Ok;
    }

    method DoSendClientCertificate() returns (ret: Wait, ghost stall: bool)
      requires state == Client(SendClientCertificate)
      modifies this
      ensures Did(ret, TlsSteps.DoSendClientCertificate(cfg, old(Now()), stall)) && wait == old(wait)
    {
      hide Advances;
      stall := false;
      if !certRequest {
        state := Client(SendClientKeyExchange);
        return Ok, stall;
      }
      var retry: bool := *;
      stall := retry;
      if retry {
        return Async, stall;
      }
      if !cfg.clientHasCert {
        FreeBuffer();
      }
      AddIf(true, Certificate, false);
      state := Client(SendClientKeyExchange);
      return Ok, stall;
    }

    method DoSendClientKeyExchange() returns (ret: Wait)
      requires state == Client(SendClientKeyExchange)
      modifies this
      ensures Did(ret, TlsSteps.DoClient(cfg, old(Now()), false)) && wait == old(wait)
    {
      hide Advances;
      AddIf(true, ClientKeyExchange, false);
      state := Client(SendClientCertificateVerify);
      return Ok;
    }

    method DoSendClientCertificateVerify() returns (ret: Wait, ghost stall: bool)
      requires state == Client(SendClientCertificateVerify)
      modifies this
      ensures Did(ret, TlsSteps.DoSendClientCertificateVerify(cfg, old(Now()), stall)) && wait == old(wait)
    {
      hide Advances;
      stall := false;
      if !certRequest || !cfg.clientHasCert {
        state := Client(SendClientFinished);
        return Ok, stall;
      }
      var retry: bool := *;
      stall := retry;
      if retry {
        return Async, stall;
      }
      AddMessage(Message(CertificateVerify, cfg.sign(if live then transcript else [])));
      FreeBuffer();
      state := Client(SendClientFinished);
      return Ok, stall;
    }

    method DoSendClientFinished() returns (ret: Wait, ghost stall: bool)
      requires state == Client(SendClientFinished)
      modifies this
      ensures Did(ret, TlsSteps.DoSendClientFinished(cfg, old(Now()), stall)) && wait == old(wait)
      ensures ret == Flush && Plain(old(flight)) ==> W.Closed(cfg, flight, transcript, false)
      ensures ret == Flush ==> writeKeys == old(writeKeys) + 1 && old(transcript) <= transcript
      ensures ret == Async ==> Now() == old(Now())
    {
      hide Advances, W.Closed, Plain, TlsSteps.AddIf, AddFinished;
      stall := false;
      FinishedCloses(cfg, Now());
      if cfg.channelId {
        // Before anything that could not be repeated.
        var retry: bool := *;
        stall := retry;
        if retry {
          return Async, stall;
        }
      }
      AddChangeCipherSpec();
      AddIf(cfg.nextProto, NextProto, false);
      AddIf(cfg.channelId, ChannelId, false);
      SendFinished(false);
      state := Client(FinishFlight);
      return Flush, stall;
    }

    method DoFinishFlight() returns (ret: Wait)
      requires state == Client(FinishFlight)
      modifies this
      ensures Did(ret, TlsSteps.DoClient(cfg, old(Now()), false)) && wait == old(wait)
    {
      hide Advances;
      if cfg.resume {
        state := Client(FinishClientHandshake);
      } else {
        state := Client(ReadSessionTicket);
      }
      return Ok;
    }

    method DoReadSessionTicket() returns (ret: Wait)
      requires state == Client(ReadSessionTicket)
      modifies this
      ensures Did(ret, TlsSteps.DoReadSessionTicket(cfg, old(Now()))) && wait == old(wait)
    {
      hide Advances;
      if !cfg.ticket {
        state := Client(ProcessServerCcs);
        return ReadCcs;
      }
      if inbox.None? {
        return ReadMessage;
      }
      if inbox.value.tag != NewSessionTicket || !cfg.accepts(inbox.value) {
        return Error;
      }
      TakeMessage();
      state := Client(ProcessServerCcs);
      return ReadCcs;
    }

    method DoProcessServerCcs() returns (ret: Wait)
      requires state == Client(ProcessServerCcs)
      modifies this
      ensures Did(ret, TlsSteps.DoClient(cfg, old(Now()), false)) && wait == old(wait)
    {
      hide Advances;
      readKeys := readKeys + 1;
      state := Client(ReadServerFinished);
      return Ok;
    }

    method DoReadServerFinished() returns (ret: Wait)
      requires state == Client(ReadServerFinished)
      modifies this
      ensures Did(ret, TlsSteps.DoReadServerFinished(cfg, old(Now()))) && wait == old(wait)
    {
      hide Advances;
      ret := GetFinished(true);
      if ret != Ok {
        return;
      }
      if cfg.resume {
        state := Client(SendClientFinished);
      } else {
        state := Client(FinishClientHandshake);
      }
    }

    method DoFinishClientHandshake() returns (ret: Wait)
      requires state == Client(FinishClientHandshake)
      modifies this
      ensures Did(ret, TlsSteps.DoClient(cfg, old(Now()), false)) && wait == old(wait)
    {
      hide Advances;
      state := Client(ClientDone);
      return Ok;
    }

    // ----- Server ------------------------------------------------------------------

    method DoStartAccept() returns (ret: Wait)
      requires state == Server(StartAccept)
      modifies this
      ensures Did(ret, TlsSteps.DoServer(cfg, old(Now()), false)) && wait == old(wait)
    {
      hide Advances;
      state := Server(ReadClientHello);
      return Ok;
    }

    method DoReadClientHello() returns (ret: Wait, ghost stall: bool)
      requires state == Server(ReadClientHello)
      modifies this
      ensures Did(ret, TlsSteps.DoReadClientHello(cfg, old(Now()), stall)) && wait == old(wait)
    {
      hide Advances;
      if inbox.None? {
        return ReadMessage, false;
      }
      if inbox.value.tag != ClientHello || !cfg.accepts(inbox.value) {
        return Error, false;
      }
      var retry: bool := *;
      stall := retry;
      if retry {
        return Async, stall;
      }
      state := Server(SelectCertificate);
      return Ok, stall;
    }

    method DoSelectCertificate() returns (ret: Wait, ghost stall: bool)
      requires state == Server(SelectCertificate)
      modifies this
      ensures Did(ret, TlsSteps.DoSelectCertificate(cfg, old(Now()), stall)) && wait == old(wait)
    {
      hide Advances;
      if inbox.None? {
        return ReadMessage, false;
      }
      var retry: bool := *;
      stall := retry;
      if retry {
        return Async, stall;
      }
      state := Server(SelectParameters);
      return Ok, stall;
    }

    method DoSelectParameters() returns (ret: Wait, ghost stall: bool)
      requires state == Server(SelectParameters)
      modifies this
      ensures Did(ret, TlsSteps.DoSelectParameters(cfg, old(Now()), stall)) && wait == old(wait)
    {
      hide Advances;
      if inbox.None? {
        return ReadMessage, false;
      }
      var retry: bool := *;
      stall := retry;
      if retry {
        return Async, stall;
      }
      if !cfg.resume {
        certRequest := cfg.wantCert;
        if !cfg.certAuth {
          certRequest := false;
        }
      } else {
        certRequest := false;
      }
      TakeMessage();
      if !certRequest {
        FreeBuffer();
      }
      state := Server(SendServerHello);
      return Ok, stall;
    }

    method DoSendServerHello() returns (ret: Wait)
      requires state == Server(SendServerHello)
      modifies this
      ensures Did(ret, TlsSteps.DoServer(cfg, old(Now()), false)) && wait == old(wait)
    {
      hide Advances;
      AddIf(true, ServerHello, true);
      if cfg.resume {
        state := Server(SendServerFinished);
      } else {
        state := Server(SendServerCertificate);
      }
      return Ok;
    }

    method DoSendServerCertificate() returns (ret: Wait)
      requires state == Server(SendServerCertificate)
      modifies this
      ensures Did(ret, TlsSteps.DoSendServerCertificate(cfg, old(Now()))) && wait == old(wait)
    {
      hide Advances;
      if cfg.certAuth {
        if !cfg.serverHasCert {
          return Error;
        }
        AddIf(true, Certificate, true);
        if cfg.status {
          AddIf(true, CertificateStatus, true);
        }
      }
      state := Server(SendServerKeyExchange);
      return Ok;
    }

    method DoSendServerKeyExchange() returns (ret: Wait, ghost stall: bool)
      requires state == Server(SendServerKeyExchange)
      modifies this
      ensures Did(ret, TlsSteps.DoSendServerKeyExchange(cfg, old(Now()), stall)) && wait == old(wait)
    {
      hide Advances;
      stall := false;
      if !cfg.requiresSke && (cfg.certAuth || !cfg.pskHint) {
        state := Server(SendServerHelloDone);
        return Ok, stall;
      }
      if cfg.certAuth {
        var retry: bool := *;
        stall := retry;
        if retry {
          return Async, stall;
        }
      }
      AddIf(true, ServerKeyExchange, true);
      state := Server(SendServerHelloDone);
      return Ok, stall;
    }

    method DoSendServerHelloDone() returns (ret: Wait)
      requires state == Server(SendServerHelloDone)
      modifies this
      ensures Did(ret, TlsSteps.DoSendServerHelloDone(cfg, old(Now()))) && wait == old(wait)
    {
      hide Advances;
      if certRequest {
        AddIf(true, CertificateRequest, true);
      }
      AddIf(true, ServerHelloDone, true);
      state := Server(ReadClientCertificate);
      return Flush;
    }

    method DoReadClientCertificate() returns (ret: Wait)
      requires state == Server(ReadClientCertificate)
      modifies this
      ensures Did(ret, TlsSteps.DoReadClientCertificate(cfg, old(Now()))) && wait == old(wait)
    {
      hide Advances;
      if !certRequest {
        state := Server(VerifyClientCertificate);
        return Ok;
      }
      if inbox.None? {
        return ReadMessage;
      }
      if inbox.value.tag != Certificate || !cfg.accepts(inbox.value) {
        return Error;
      }
      var msg := inbox.value;
      TakeMessage();
      if cfg.hasChain(msg) {
        peerCert := true;
      } else {
        FreeBuffer();
        if cfg.needCert {
          return Error;
        }
      }
      state := Server(VerifyClientCertificate);
      return Ok;
    }

    method DoVerifyClientCertificate() returns (ret: Wait, ghost stall: bool)
      requires state == Server(VerifyClientCertificate)
      modifies this
      ensures Did(ret, TlsSteps.DoVerifyClientCertificate(cfg, old(Now()), stall)) && wait == old(wait)
    {
      hide Advances;
      stall := false;
      if peerCert {
        var retry: bool := *;
        stall := retry;
        if retry {
          return Async, stall;
        }
        if !cfg.trustsClient {
          return Error, stall;
        }
      }
      state := Server(ReadClientKeyExchange);
      return Ok, stall;
    }

    method DoReadClientKeyExchange() returns (ret: Wait, ghost stall: bool)
      requires state == Server(ReadClientKeyExchange)
      modifies this
      ensures Did(ret, TlsSteps.DoReadClientKeyExchange(cfg, old(Now()), stall)) && wait == old(wait)
    {
      hide Advances;
      if inbox.None? {
        return ReadMessage, false;
      }
      if inbox.value.tag != ClientKeyExchange || !cfg.accepts(inbox.value) {
        return Error, false;
      }
      stall := false;
      if cfg.certAuth && !cfg.requiresSke {
        var retry: bool := *;
        stall := retry;
        if retry {
          return Async, stall;
        }
      }
      TakeMessage();
      state := Server(ReadClientCertificateVerify);
      return Ok, stall;
    }

    method DoReadClientCertificateVerify() returns (ret: Wait)
      requires state == Server(ReadClientCertificateVerify)
      modifies this
      ensures Did(ret, TlsSteps.DoReadClientCertificateVerify(cfg, old(Now()))) && wait == old(wait)
    {
      hide Advances;
      if !peerCert {
        FreeBuffer();
        state := Server(ReadClientCcs);
        return Ok;
      }
      if inbox.None? {
        return ReadMessage;
      }
      var msg := inbox.value;
      if msg.tag != CertificateVerify {
        return Error;
      }
      if msg.body != cfg.sign(if live then transcript else []) {
        return Error;
      }
      FreeBuffer();
      TakeMessage();
      state := Server(ReadClientCcs);
      return Ok;
    }

    method DoReadClientCcs() returns (ret: Wait)
      requires state == Server(ReadClientCcs)
      modifies this
      ensures Did(ret, TlsSteps.DoServer(cfg, old(Now()), false)) && wait == old(wait)
    {
      hide Advances;
      state := Server(ProcessClientCcs);
      return ReadCcs;
    }

    method DoProcessClientCcs() returns (ret: Wait)
      requires state == Server(ProcessClientCcs)
      modifies this
      ensures Did(ret, TlsSteps.DoServer(cfg, old(Now()), false)) && wait == old(wait)
    {
      hide Advances;
      readKeys := readKeys + 1;
      state := Server(ReadNextProto);
      return Ok;
    }

    method DoReadNextProto() returns (ret: Wait)
      requires state == Server(ReadNextProto)
      modifies this
      ensures Did(ret, TlsSteps.DoServer(cfg, old(Now()), false)) && wait == old(wait)
    {
      hide Advances;
      if !cfg.nextProto {
        state := Server(ReadChannelId);
        return Ok;
      }
      if inbox.None? {
        return ReadMessage;
      }
      if inbox.value.tag != NextProto || !cfg.accepts(inbox.value) {
        return Error;
      }
      TakeMessage();
      state := Server(ReadChannelId);
      return Ok;
    }

    method DoReadChannelId() returns (ret: Wait)
      requires state == Server(ReadChannelId)
      modifies this
      ensures Did(ret, TlsSteps.DoServer(cfg, old(Now()), false)) && wait == old(wait)
    {
      hide Advances;
      if !cfg.channelId {
        state := Server(ReadClientFinished);
        return Ok;
      }
      if inbox.None? {
        return ReadMessage;
      }
      if inbox.value.tag != ChannelId || !cfg.accepts(inbox.value) {
        return Error;
      }
      TakeMessage();
      state := Server(ReadClientFinished);
      return Ok;
    }

    method DoReadClientFinished() returns (ret: Wait)
      requires state == Server(ReadClientFinished)
      modifies this
      ensures Did(ret, TlsSteps.DoReadClientFinished(cfg, old(Now()))) && wait == old(wait)
    {
      hide Advances;
      ret := GetFinished(false);
      if ret != Ok {
        return;
      }
      if cfg.resume {
        state := Server(FinishServerHandshake);
      } else {
        state := Server(SendServerFinished);
      }
    }

    method DoSendServerFinished() returns (ret: Wait)
      requires state == Server(SendServerFinished)
      modifies this
      ensures Did(ret, TlsSteps.DoSendServerFinished(cfg, old(Now()))) && wait == old(wait)
      ensures ret == Flush && Plain(old(flight)) ==> W.Closed(cfg, flight, transcript, true)
      ensures ret == Flush ==> writeKeys == old(writeKeys) + 1 && old(transcript) <= transcript
    {
      hide Advances, W.Closed, Plain, AddFinished;
      FinishedCloses(cfg, Now());
      if cfg.ticket {
        AddIf(true, NewSessionTicket, true);
      }
      AddChangeCipherSpec();
      SendFinished(true);
      if cfg.resume {
        state := Server(ReadClientCcs);
      } else {
        state := Server(FinishServerHandshake);
      }
      return Flush;
    }

    method DoFinishServerHandshake() returns (ret: Wait)
      requires state == Server(FinishServerHandshake)
      modifies this
      ensures Did(ret, TlsSteps.DoServer(cfg, old(Now()), false)) && wait == old(wait)
    {
      hide Advances;
      state := Server(ServerDone);
      return Ok;
    }

    // ----- The drivers ---------------------------------------------------------------

    /** One state of `ssl_client_handshake`. */
    method ClientState() returns (ret: Wait, ghost stall: bool)
      requires state.Client? && state.c != ClientDone
      modifies this
      ensures Did(ret, DoClient(cfg, old(Now()), stall)) && wait == old(wait)
    {
      hide Advances, Did;
      stall := false;
      match state.c
      case StartConnect => ret := DoStartConnect();
      case EnterEarlyData => ret := DoEnterEarlyData();
      case ReadServerHello => ret := DoReadServerHello();
      case ReadServerCertificate => ret := DoReadServerCertificate();
      case ReadCertificateStatus => ret := DoReadCertificateStatus();
      case VerifyServerCertificate => ret, stall := DoVerifyServerCertificate();
      case ReadServerKeyExchange => ret := DoReadServerKeyExchange();
      case ReadCertificateRequest => ret := DoReadCertificateRequest();
      case ReadServerHelloDone => ret := DoReadServerHelloDone();
      case SendClientCertificate => ret, stall := DoSendClientCertificate();
      case SendClientKeyExchange => ret := DoSendClientKeyExchange();
      case SendClientCertificateVerify => ret, stall := DoSendClientCertificateVerify();
      case SendClientFinished => ret, stall := DoSendClientFinished();
      case FinishFlight => ret := DoFinishFlight();
      case ReadSessionTicket => ret := DoReadSessionTicket();
      case ProcessServerCcs => ret := DoProcessServerCcs();
      case ReadServerFinished => ret := DoReadServerFinished();
      case FinishClientHandshake => ret := DoFinishClientHandshake();
    }

    method ServerState() returns (ret: Wait, ghost stall: bool)
      requires state.Server? && state.s != ServerDone
      modifies this
      ensures Did(ret, DoServer(cfg, old(Now()), stall)) && wait == old(wait)
    {
      hide Advances, Did;
      stall := false;
      match state.s
      case StartAccept => ret := DoStartAccept();
      case ReadClientHello => ret, stall := DoReadClientHello();
      case SelectCertificate => ret, stall := DoSelectCertificate();
      case SelectParameters => ret, stall := DoSelectParameters();
      case SendServerHello => ret := DoSendServerHello();
      case SendServerCertificate => ret := DoSendServerCertificate();
      case SendServerKeyExchange => ret, stall := DoSendServerKeyExchange();
      case SendServerHelloDone => ret := DoSendServerHelloDone();
      case ReadClientCertificate => ret := DoReadClientCertificate();
      case VerifyClientCertificate => ret, stall := DoVerifyClientCertificate();
      case ReadClientKeyExchange => ret, stall := DoReadClientKeyExchange();
      case ReadClientCertificateVerify => ret := DoReadClientCertificateVerify();
      case ReadClientCcs => ret := DoReadClientCcs();
      case ProcessClientCcs => ret := DoProcessClientCcs();
      case ReadNextProto => ret := DoReadNextProto();
      case ReadChannelId => ret := DoReadChannelId();
      case ReadClientFinished => ret := DoReadClientFinished();
      case SendServerFinished => ret := DoSendServerFinished();
      case FinishServerHandshake => ret := DoFinishServerHandshake();
    }

    /** The state machine picks the state to run. */
    method RunState() returns (ret: Wait, ghost stall: bool)
      requires !Now().IsDone()
      modifies this
      ensures Did(ret, Do(cfg, old(Now()), stall)) && wait == old(wait)
      ensures Lower(cfg, old(Now()), Now(), ret) || ret == Error
      ensures ret == Ok ==> Rank(cfg.resume, state) < Rank(cfg.resume, old(state))
      ensures ret != Error && state == old(state) ==> Now() == old(Now())
      ensures ret == Async ==> stall
    {
      hide Rank, DoClient, DoServer;
      ghost var p := Now();
      if state.Client? {
        ret, stall := ClientState();
      } else {
        ret, stall := ServerState();
      }
      DoAdvances(cfg, p, stall);
    }

    /** `ssl_client_handshake` and `ssl_server_handshake`: states run until one does not return
        Ok. `start` and `before` name the run so far. */
    method DoHandshake(ghost start: Side, ghost before: seq<bool>) returns (ret: Wait, ghost stalls: seq<bool>)
      requires wait == Ok && SideRun(cfg, start, before).p == Now()
      modifies this
      ensures wait == Ok
      ensures ret == SideRun(cfg, start, stalls).p.wait
      ensures ret != Error ==> SideRun(cfg, start, stalls) == SideRun(cfg, start, before).(p := Now().(wait := ret))
      ensures ret == Ok ==> Now().IsDone()
      ensures before <= stalls && (Stalled(before) || ret == Async ==> Stalled(stalls))
      ensures Lower(cfg, old(Now()), Now(), ret) || ret == Error
    {
      hide Do, Rank, SideRun, SideStep, Did, Advances, Stalled;
      stalls := before;
      ret := Ok;
      ghost var was := SideRun(cfg, start, before);
      while state != Client(ClientDone) && state != Server(ServerDone)
        invariant wait == Ok && ret == Ok && before <= stalls && (Stalled(before) ==> Stalled(stalls))
        invariant SideRun(cfg, start, stalls) == was.(p := Now())
        invariant Now() == old(Now()) || Rank(cfg.resume, state) < Rank(cfg.resume, old(state))
        decreases Rank(cfg.resume, state)
      {
        ghost var stall: bool;
        ghost var p := Now();
        ret, stall := RunState();
        DidIs(this, ret, Do(cfg, p, stall));
        StepDoes(cfg, SideRun(cfg, start, stalls), stall);
        StalledMore(stalls, stall);
        RunSnoc(cfg, start, stalls, stall);
        stalls := stalls + [stall];
        if ret != Ok {
          return;
        }
      }
    }

    /** `ssl_run_handshake`: settles what the machine waits for and runs it, until it is complete
        or has to return to the caller. Everything it does is a run of turns. */
    method RunHandshake(wire: Wire) returns (outcome: Outcome, ghost stalls: seq<bool>)
      modifies this, wire
      ensures var end := SideRun(cfg, old(Side(Now(), wire.incoming, wire.outgoing)), stalls);
        if wait == Error then end.p.wait == Error else end == Side(Now(), wire.incoming, wire.outgoing)
      ensures outcome == Failed <==> wait == Error
      ensures outcome == Complete ==> Now().IsDone()
      ensures outcome == Blocked ==> Stalled(stalls) || old(wait) == Async || wire.incoming == []
    {
      hide Do, Rank, SideRun, Turn, Lower, SideStep, Stalled;
      ghost var start := Side(Now(), wire.incoming, wire.outgoing);
      stalls := [];
      RunNothing(cfg, start);
      if wait == Error {
        return Failed, stalls;
      }
      var result: Option<Outcome> := None;
      while result.None?
        invariant wait != Error ==> SideRun(cfg, start, stalls) == Side(Now(), wire.incoming, wire.outgoing)
        invariant wait == Error ==> SideRun(cfg, start, stalls).p.wait == Error
        invariant Returns(result)
        invariant result.None? && wait == Async ==> Stalled(stalls) || old(wait) == Async
        invariant result == Some(Blocked) ==> Stalled(stalls) || old(wait) == Async || wire.incoming == []
        decreases result.None?, Rank(cfg.resume, state), Phase(wait)
      {
        result, stalls := RunOnce(wire, start, stalls);
      }
      outcome := result.value;
    }

    /** What the wait says once the driver returns, or goes on. */
    ghost predicate Returns(outcome: Option<Outcome>)
      reads this
    {
      && (outcome == Some(Failed) <==> wait == Error)
      && (outcome == Some(Complete) ==> Now().IsDone())
    }

    /** One turn of the loop: it returns to the caller, or waits in a state of lower rank or for
        less in the same one. */
    method RunOnce(wire: Wire, ghost start: Side, ghost before: seq<bool>)
      returns (outcome: Option<Outcome>, ghost stalls: seq<bool>)
      requires wait != Error && SideRun(cfg, start, before) == Side(Now(), wire.incoming, wire.outgoing)
      modifies this, wire
      ensures wait != Error ==> SideRun(cfg, start, stalls) == Side(Now(), wire.incoming, wire.outgoing)
      ensures wait == Error ==> SideRun(cfg, start, stalls).p.wait == Error
      ensures Returns(outcome)
      ensures Stalled(before) ==> Stalled(stalls)
      ensures outcome == Some(Blocked) ==> Stalled(stalls) || old(wait) == Async || wire.incoming == []
      ensures outcome.None? && wait == Async ==> Stalled(stalls)
      ensures outcome.None? ==>
        Rank(cfg.resume, state) < Rank(cfg.resume, old(state))
        || (state == old(state) && Phase(wait) < Phase(old(wait)))
    {
      hide Do, Rank, SideRun, Turn, Lower, SideStep, Stalled;
      stalls := before;
      ghost var was := Now();
      if wait != Ok {
        var settled;
        ghost var stall;
        settled, stall := Settle(wire);
        RunSnoc(cfg, start, stalls, stall);
        StalledMore(stalls, stall);
        stalls := stalls + [stall];
        if !settled {
          return Some(if wait == Error then Failed else Blocked), stalls;
        }
      }
      ghost var p := Now();
      var ret;
      ret, stalls := DoHandshake(start, stalls);
      ghost var q := Now();
      wait := ret;
      if ret == Error {
        return Some(Failed), stalls;
      }
      if ret == Ok {
        return Some(Complete), stalls;
      }
      LowerPhase(cfg, was, p, q, ret);
      return None, stalls;
    }

    /** The first half of the loop: flush, read a message or a ChangeCipherSpec, or return so that
        a callback can be called again. */
    method Settle(wire: Wire) returns (settled: bool, ghost stall: bool)
      requires wait !in {Ok, Error}
      modifies this`wait, this`inbox, this`flight, wire
      ensures SideStep(cfg, old(Side(Now(), wire.incoming, wire.outgoing)), stall) ==
        Side(Now(), wire.incoming, wire.outgoing)
      ensures settled ==> wait == Ok && old(wait) != Async
      ensures !settled && wait != Error ==> stall || old(wait) == Async || wire.incoming == []
      ensures settled && old(wait) == ReadMessage ==> inbox.Some?
      ensures settled && old(wait) != ReadMessage ==> inbox == old(inbox)
    {
      hide Do;
      var ready: bool := *;
      stall := !ready;
      assert wire.outgoing + [] == wire.outgoing;
      match wait
      case Flush =>
        if !ready {
          return false, stall;
        }
        wire.outgoing := wire.outgoing + flight;
        flight := [];
        wait := Ok;
        settled := true;
      case ReadMessage =>
        if !ready || wire.incoming == [] {
          return false, stall;
        }
        var item := wire.incoming[0];
        wire.incoming := wire.incoming[1..];
        if item.Ccs? {
          wait := Error;
          return false, stall;
        }
        inbox := Some(item.m);
        wait := Ok;
        settled := true;
      case ReadCcs =>
        if !ready || wire.incoming == [] {
          return false, stall;
        }
        var item := wire.incoming[0];
        wire.incoming := wire.incoming[1..];
        if item.Hs? {
          wait := Error;
          return false, stall;
        }
        wait := Ok;
        settled := true;
      case Async =>
        wait := Ok;
        settled := false;
    }
  }

  /** How far a call of the state machine got: to a state of lower rank, or nowhere. */
  predicate Lower(cfg: Config, p: Party, q: Party, ret: Wait) {
    || Rank(cfg.resume, q.state) < Rank(cfg.resume, p.state)
    || (q.state == p.state && (ret in {Ok, Error, Async} || (ret == ReadMessage && p.inbox.None?)))
  }

  function Phase(wait: Wait): nat {
    match wait
    case Error => 0
    case Async => 1
    case ReadMessage => 2
    case Ok => 3
    case Flush => 4
    case ReadCcs => 4
  }

  /** What the states that send a Finished add to a flight, in the order of sending. */
  lemma FinishedCloses(cfg: Config, p: Party)
    requires p.state in {Client(SendClientFinished), Server(SendServerFinished)}
    ensures var q := Do(cfg, p, false);
      && q.wait == Flush && q.writeKeys == p.writeKeys + 1 && p.transcript <= q.transcript
      && (Plain(p.flight) ==> W.Closed(cfg, q.flight, q.transcript, p.state.Server?))
  {
    hide Advances, W.Closed, AddIf, AddFinished;
    assert [] + p.flight == p.flight;
    W.TranscriptGrows(cfg, p);
    if Plain(p.flight) {
      W.SendFinishedCloses(cfg, [], p, false);
      assert [] + Do(cfg, p, false).flight == Do(cfg, p, false).flight;
    }
  }

  lemma DidIs(hs: SslHandshake, ret: Wait, q: Party)
    requires hs.Did(ret, q)
    ensures ret == q.wait && (ret != Error ==> hs.Now() == q.(wait := hs.wait))
  {
  }

  lemma LowerPhase(cfg: Config, was: Party, settled: Party, q: Party, ret: Wait)
    requires ret !in {Ok, Error} && was.wait !in {Error, Async}
    requires settled.state == was.state && (was.wait == ReadMessage ==> settled.inbox.Some?)
    requires Lower(cfg, settled, q, ret)
    ensures Rank(cfg.resume, q.state) < Rank(cfg.resume, was.state)
      || (q.state == was.state && Phase(ret) < Phase(was.wait))
  {
  }

  /** The transport or a callback was not ready at some turn. */
  predicate Stalled(stalls: seq<bool>) {
    true in stalls
  }

  lemma StalledMore(stalls: seq<bool>, stall: bool)
    ensures Stalled(stalls + [stall]) <==> Stalled(stalls) || stall
  {
    assert stall in stalls + [stall];
  }

  lemma RunNothing(cfg: Config, s: Side)
    ensures SideRun(cfg, s, []) == s
  {
  }

  lemma {:induction false} RunSnoc(cfg: Config, s: Side, stalls: seq<bool>, stall: bool)
    ensures SideRun(cfg, s, stalls + [stall]) == SideStep(cfg, SideRun(cfg, s, stalls), stall)
    decreases |stalls|
  {
    hide SideStep;
    if stalls == [] {
      assert [stall][1..] == [];
    } else {
      assert (stalls + [stall])[1..] == stalls[1..] + [stall];
      RunSnoc(cfg, SideStep(cfg, s, stalls[0]), stalls[1..], stall);
    }
  }

  lemma StepDoes(cfg: Config, s: Side, stall: bool)
    requires s.p.wait == Ok && !s.p.IsDone()
    ensures SideStep(cfg, s, stall) == s.(p := Do(cfg, s.p, stall))
  {
    hide Do;
    assert s.sent + [] == s.sent;
  }
}
