/** The order of a handshake (section 7.3 of RFC 5246, section 3.1 of RFC 5077), written down once
    for both sides, and where each state of the machines stands in it. */
module TlsScript {
  import opened TlsSteps

  datatype What = Absent | Change | Sent(tag: Tag)

  /** One place in the order; some are empty under some parameters. */
  datatype Place = Place(fromServer: bool, what: What)

  function If(present: bool, tag: Tag): What {
    if present then Sent(tag) else Absent
  }

  function Length(cfg: Config): nat {
    if cfg.resume then 9 else 17
  }

  function At(cfg: Config, k: nat): Place
    requires k < Length(cfg)
  {
    if cfg.resume then
      match k
      case 0 => Place(false, Sent(ClientHello))
      case 1 => Place(true, Sent(ServerHello))
      case 2 => Place(true, If(cfg.ticket, NewSessionTicket))
      case 3 => Place(true, Change)
      case 4 => Place(true, Sent(Finished))
      case 5 => Place(false, Change)
      case 6 => Place(false, If(cfg.nextProto, NextProto))
      case 7 => Place(false, If(cfg.channelId, ChannelId))
      case _ => Place(false, Sent(Finished))
    else
      match k
      case 0 => Place(false, Sent(ClientHello))
      case 1 => Place(true, Sent(ServerHello))
      case 2 => Place(true, If(cfg.certAuth, Certificate))
      case 3 => Place(true, If(cfg.certAuth && cfg.status, CertificateStatus))
      case 4 => Place(true, If(SendsSke(cfg), ServerKeyExchange))
      case 5 => Place(true, If(AsksCert(cfg), CertificateRequest))
      case 6 => Place(true, Sent(ServerHelloDone))
      case 7 => Place(false, If(AsksCert(cfg), Certificate))
      case 8 => Place(false, Sent(ClientKeyExchange))
      case 9 => Place(false, If(AsksCert(cfg) && cfg.clientHasCert, CertificateVerify))
      case 10 => Place(false, Change)
      case 11 => Place(false, If(cfg.nextProto, NextProto))
      case 12 => Place(false, If(cfg.channelId, ChannelId))
      case 13 => Place(false, Sent(Finished))
      case 14 => Place(true, If(cfg.ticket, NewSessionTicket))
      case 15 => Place(true, Change)
      case _ => Place(true, Sent(Finished))
  }

  /** The message of a place: a Finished is the MAC over all messages before it, a
      CertificateVerify the signature over them, the rest is opaque. */
  function MessageAt(cfg: Config, k: nat): (m: Message)
    requires k < Length(cfg) && At(cfg, k).what.Sent?
    ensures m.tag == At(cfg, k).what.tag
    decreases k, 1
  {
    var tag, fromServer := At(cfg, k).what.tag, At(cfg, k).fromServer;
    if tag == Finished then Message(tag, cfg.mac(Transcript(cfg, k), fromServer))
    else if tag == CertificateVerify then Message(tag, cfg.sign(Transcript(cfg, k)))
    else Message(tag, cfg.body(tag, fromServer))
  }

  /** The messages of the first `k` places. */
  function Transcript(cfg: Config, k: nat): seq<Message>
    requires k <= Length(cfg)
    decreases k, 0
  {
    if k == 0 then []
    else Transcript(cfg, k - 1) + if At(cfg, k - 1).what.Sent? then [MessageAt(cfg, k - 1)] else []
  }

  function ItemsAt(cfg: Config, k: nat): seq<Item>
    requires k < Length(cfg)
  {
    match At(cfg, k).what
    case Absent => []
    case Change => [Ccs]
    case Sent(_) => [Hs(MessageAt(cfg, k))]
  }

  /** What travels in the places from `a` up to `b`. */
  function Items(cfg: Config, a: nat, b: nat): seq<Item>
    requires b <= Length(cfg)
    decreases b - a
  {
    if a >= b then [] else ItemsAt(cfg, a) + Items(cfg, a + 1, b)
  }

  /** The first place from `k` on that is not empty. */
  function Next(cfg: Config, k: nat): (n: nat)
    requires k <= Length(cfg)
    ensures k <= n <= Length(cfg)
    ensures n < Length(cfg) ==> !At(cfg, n).what.Absent?
    ensures forall j :: k <= j < n ==> At(cfg, j).what.Absent?
    decreases Length(cfg) - k
  {
    if k < Length(cfg) && At(cfg, k).what.Absent? then Next(cfg, k + 1) else k
  }

  /** Nothing in the places from `a` up to `b` comes from the other side. */
  predicate Owned(cfg: Config, a: nat, b: nat, server: bool)
    requires b <= Length(cfg)
  {
    forall k :: a <= k < b ==> At(cfg, k).what.Absent? || At(cfg, k).fromServer == server
  }

  // ----- Where a state stands -------------------------------------------------------

  /** The number of places that a client in this state has behind it. */
  function ClientPlace(cfg: Config, c: ClientState, wait: Wait): nat {
    match c
    case StartConnect => 0
    case EnterEarlyData => 1
    case ReadServerHello => 1
    case ReadServerCertificate => 2
    case ReadCertificateStatus => 3
    case VerifyServerCertificate => 4
    case ReadServerKeyExchange => 4
    case ReadCertificateRequest => 5
    case ReadServerHelloDone => 6
    case SendClientCertificate => 7
    case SendClientKeyExchange => 8
    case SendClientCertificateVerify => 9
    case SendClientFinished => if cfg.resume then 5 else 10
    case FinishFlight => if cfg.resume then 9 else 14
    case ReadSessionTicket => if cfg.resume then 2 else 14
    case ProcessServerCcs => (if cfg.resume then 3 else 15) + if wait == ReadCcs then 0 else 1
    case ReadServerFinished => if cfg.resume then 4 else 16
    case FinishClientHandshake => Length(cfg)
    case ClientDone => Length(cfg)
  }

  function ServerPlace(cfg: Config, s: ServerState, wait: Wait): nat {
    match s
    case StartAccept => 0
    case ReadClientHello => 0
    case SelectCertificate => 0
    case SelectParameters => 0
    case SendServerHello => 1
    case SendServerCertificate => 2
    case SendServerKeyExchange => 4
    case SendServerHelloDone => 5
    case ReadClientCertificate => 7
    case VerifyClientCertificate => 8
    case ReadClientKeyExchange => 8
    case ReadClientCertificateVerify => 9
    case ReadClientCcs => if cfg.resume then 5 else 10
    case ProcessClientCcs => (if cfg.resume then 5 else 10) + if wait == ReadCcs then 0 else 1
    case ReadNextProto => if cfg.resume then 6 else 11
    case ReadChannelId => if cfg.resume then 7 else 12
    case ReadClientFinished => if cfg.resume then 8 else 13
    case SendServerFinished => if cfg.resume then 2 else 14
    case FinishServerHandshake => Length(cfg)
    case ServerDone => Length(cfg)
  }

  function PlaceOf(cfg: Config, p: Party): nat {
    match p.state
    case Client(c) => ClientPlace(cfg, c, p.wait)
    case Server(s) => ServerPlace(cfg, s, p.wait)
  }

  /** States that a resumption does not jump over. */
  predicate OnPath(cfg: Config, state: State) {
    cfg.resume ==>
      match state
      case Client(c) => (
        match c
        case ReadServerCertificate => false
        case ReadCertificateStatus => false
        case VerifyServerCertificate => false
        case ReadServerKeyExchange => false
        case ReadCertificateRequest => false
        case ReadServerHelloDone => false
        case SendClientCertificate => false
        case SendClientKeyExchange => false
        case SendClientCertificateVerify => false
        case _ => true)
      case Server(s) => (
        match s
        case SendServerCertificate => false
        case SendServerKeyExchange => false
        case SendServerHelloDone => false
        case ReadClientCertificate => false
        case VerifyClientCertificate => false
        case ReadClientKeyExchange => false
        case ReadClientCertificateVerify => false
        case _ => true)
  }

  // ----- Facts about the order ----------------------------------------------------------

  lemma {:induction false} ItemsSplit(cfg: Config, a: nat, b: nat, c: nat)
    requires a <= b <= c <= Length(cfg)
    ensures Items(cfg, a, c) == Items(cfg, a, b) + Items(cfg, b, c)
    decreases b - a
  {
    hide At, ItemsAt;
    if a < b {
      ItemsSplit(cfg, a + 1, b, c);
      assert ItemsAt(cfg, a) + (Items(cfg, a + 1, b) + Items(cfg, b, c)) ==
        ItemsAt(cfg, a) + Items(cfg, a + 1, b) + Items(cfg, b, c);
    }
  }

  lemma {:induction false} ItemsNothing(cfg: Config, a: nat, b: nat)
    requires b <= Length(cfg) && forall k :: a <= k < b ==> At(cfg, k).what.Absent?
    ensures Items(cfg, a, b) == []
    decreases b - a
  {
    hide At;
    if a < b {
      ItemsNothing(cfg, a + 1, b);
    }
  }

  /** What travels first is the item of the next place that is not empty. */
  lemma ItemsHead(cfg: Config, a: nat, b: nat)
    requires a <= Length(cfg) && b <= Length(cfg)
    ensures Items(cfg, a, b) == [] <==> b <= Next(cfg, a)
    ensures var n := Next(cfg, a);
      n < b ==> |ItemsAt(cfg, n)| == 1 && Items(cfg, a, b) == ItemsAt(cfg, n) + Items(cfg, n + 1, b)
  {
    hide At;
    var n := Next(cfg, a);
    if b <= n {
      ItemsNothing(cfg, a, b);
    } else {
      ItemsSplit(cfg, a, n, b);
      ItemsNothing(cfg, a, n);
    }
  }
}
