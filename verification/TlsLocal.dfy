/** What one side keeps at every step, when the other side is honest. */
module TlsLocal {
  import opened TlsSteps
  import opened TlsScript

  /** Bodies that the other side accepts, certificates that are trusted, and a client that has a
      certificate if the server insists on one. */
  predicate Honest(cfg: Config) {
    && (forall tag: Tag, side: bool :: cfg.accepts(Message(tag, cfg.body(tag, side))))
    && cfg.hasChain(Message(Certificate, cfg.body(Certificate, true)))
    && cfg.hasChain(Message(Certificate, cfg.body(Certificate, false))) == cfg.clientHasCert
    && (cfg.certAuth ==> cfg.serverHasCert)
    && cfg.trustsServer && cfg.trustsClient
    && (cfg.needCert && AsksCert(cfg) ==> cfg.clientHasCert)
  }

  function ClientCcs(cfg: Config): nat {
    if cfg.resume then 5 else 10
  }

  function ServerCcs(cfg: Config): nat {
    if cfg.resume then 3 else 15
  }

  predicate IsServer(p: Party) {
    p.state.Server?
  }

  /** The next thing to travel is a message from the other side. */
  predicate Receives(cfg: Config, p: Party)
    requires PlaceOf(cfg, p) <= Length(cfg)
  {
    var n := Next(cfg, PlaceOf(cfg, p));
    n < Length(cfg) && At(cfg, n).fromServer != IsServer(p) && At(cfg, n).what.Sent?
  }

  /** The current message is the next thing to travel. */
  predicate Expected(cfg: Config, p: Party)
    requires PlaceOf(cfg, p) <= Length(cfg)
  {
    p.inbox.Some? ==>
      && Receives(cfg, p)
      && p.inbox.value == MessageAt(cfg, Next(cfg, PlaceOf(cfg, p)))
  }

  /** States that are entered with a flush to be done. */
  predicate AfterFlight(state: State) {
    match state
    case Client(c) => (
      match c
      case EnterEarlyData => true
      case FinishFlight => true
      case _ => false)
    case Server(s) => (
      match s
      case ReadClientCertificate => true
      case ReadClientCcs => true
      case FinishServerHandshake => true
      case _ => false)
  }

  /** States that may be entered with a flight begun and not yet complete. */
  predicate InFlight(state: State) {
    match state
    case Client(c) => (
      match c
      case SendClientKeyExchange => true
      case SendClientCertificateVerify => true
      case SendClientFinished => true
      case _ => false)
    case Server(s) => (
      match s
      case SendServerCertificate => true
      case SendServerKeyExchange => true
      case SendServerHelloDone => true
      case SendServerFinished => true
      case _ => false)
  }

  /** The keys changed once, at the ChangeCipherSpec of that direction. */
  predicate KeysOk(cfg: Config, p: Party)
    requires PlaceOf(cfg, p) <= Length(cfg)
  {
    var k := PlaceOf(cfg, p);
    match p.state
    case Client(c) =>
      && p.writeKeys == (if k > ClientCcs(cfg) then 1 else 0)
      && p.readKeys == (if k > ServerCcs(cfg) && c != ProcessServerCcs then 1 else 0)
    case Server(s) =>
      && p.writeKeys == (if k > ServerCcs(cfg) then 1 else 0)
      && p.readKeys == (if k > ClientCcs(cfg) && s != ProcessClientCcs then 1 else 0)
  }

  /** The client certificate, as far as each side knows; and while a CertificateVerify is still
      to come, the transcript is kept. */
  predicate CertOk(cfg: Config, p: Party)
    requires PlaceOf(cfg, p) <= Length(cfg)
  {
    var k := PlaceOf(cfg, p);
    && (p.state.Client? ==> p.certRequest == (AsksCert(cfg) && k > 5))
    && (p.state.Server? ==> p.certRequest == (AsksCert(cfg) && k > 0))
    && (p.state.Server? ==> p.peerCert == (AsksCert(cfg) && cfg.clientHasCert && k > 7))
    && (AsksCert(cfg) && cfg.clientHasCert && k <= 9 ==> p.live)
  }

  predicate WaitOk(cfg: Config, p: Party)
    requires PlaceOf(cfg, p) <= Length(cfg)
  {
    && p.wait != Error
    && (p.wait == ReadMessage ==> p.inbox.None? && Receives(cfg, p))
    && (p.wait == ReadCcs <==> p.state in {Client(ProcessServerCcs), Server(ProcessClientCcs)} && p.wait != Ok)
    && (p.wait == ReadCcs ==> p.inbox.None?)
    && (p.wait in {ReadMessage, ReadCcs} ==> p.flight == [])
    && (p.wait == Flush ==> p.inbox.None?)
    && (p.wait == Flush ==> AfterFlight(p.state))
    && (p.flight != [] ==> p.wait == Flush || InFlight(p.state))
  }

  predicate PartyOk(cfg: Config, p: Party) {
    && OnPath(cfg, p.state)
    && PlaceOf(cfg, p) <= Length(cfg)
    && p.transcript == Transcript(cfg, PlaceOf(cfg, p))
    && KeysOk(cfg, p) && CertOk(cfg, p) && WaitOk(cfg, p)
  }

  /** What a turn may change: it adds the items of its own places to the flight, or consumes the
      current message, which is the one item of the places it passes. */
  predicate Moves(cfg: Config, p: Party, q: Party) {
    var k, n := PlaceOf(cfg, p), PlaceOf(cfg, q);
    && k <= n <= Length(cfg)
    && IsServer(p) == IsServer(q)
    && ((q.inbox == p.inbox && q.flight == p.flight + Items(cfg, k, n) && Owned(cfg, k, n, IsServer(p)))
        || (p.inbox.Some? && q.inbox.None? && q.flight == p.flight && Items(cfg, k, n) == [Hs(p.inbox.value)]))
  }

  // ----- Adding the items of a place ---------------------------------------------------

  function AddPlace(cfg: Config, p: Party, k: nat): Party
    requires k < Length(cfg)
  {
    match At(cfg, k).what
    case Absent => p
    case Change => p.AddCcs()
    case Sent(_) => p.Add(MessageAt(cfg, k))
  }

  lemma AddPlaceOk(cfg: Config, p: Party, k: nat)
    requires k < Length(cfg) && p.transcript == Transcript(cfg, k)
    ensures var q := AddPlace(cfg, p, k);
      && q.transcript == Transcript(cfg, k + 1)
      && q.flight == p.flight + ItemsAt(cfg, k)
      && q == p.(transcript := q.transcript, flight := q.flight, writeKeys := q.writeKeys)
      && q.writeKeys == p.writeKeys + if At(cfg, k).what.Change? then 1 else 0
  {
  }

  lemma ItemsOne(cfg: Config, k: nat)
    requires k < Length(cfg)
    ensures Items(cfg, k, k + 1) == ItemsAt(cfg, k)
    ensures Items(cfg, k, k) == []
  {
    assert Items(cfg, k + 1, k + 1) == [];
  }

  /** Three places, one after the other; the transcript is right at each of them. */
  lemma AddThree(cfg: Config, p: Party, k: nat) returns (q: Party, r: Party, t: Party)
    requires k + 3 <= Length(cfg) && p.transcript == Transcript(cfg, k)
    ensures q == AddPlace(cfg, p, k) && r == AddPlace(cfg, q, k + 1) && t == AddPlace(cfg, r, k + 2)
    ensures q.transcript == Transcript(cfg, k + 1)
    ensures r.transcript == Transcript(cfg, k + 2) && r.flight == p.flight + Items(cfg, k, k + 2)
    ensures t.transcript == Transcript(cfg, k + 3) && t.flight == p.flight + Items(cfg, k, k + 3)
  {
    hide At, ItemsAt, Items, Transcript, MessageAt, AddPlace;
    q := AddPlace(cfg, p, k);
    r := AddPlace(cfg, q, k + 1);
    t := AddPlace(cfg, r, k + 2);
    AddPlaceOk(cfg, p, k);
    AddPlaceOk(cfg, q, k + 1);
    AddPlaceOk(cfg, r, k + 2);
    ItemsOne(cfg, k);
    ItemsOne(cfg, k + 1);
    ItemsOne(cfg, k + 2);
    ItemsSplit(cfg, k, k + 1, k + 2);
    ItemsSplit(cfg, k, k + 2, k + 3);
    var f, x, y, z := p.flight, ItemsAt(cfg, k), ItemsAt(cfg, k + 1), ItemsAt(cfg, k + 2);
    assert f + x + y == f + (x + y) && f + (x + y) + z == f + (x + y + z);
  }

  // ----- Client ---------------------------------------------------------------------------

  /** The current message is at the next place; consuming it passes that place. */
  lemma ConsumeOk(cfg: Config, p: Party, n: nat)
    requires p.inbox.Some? && n < Length(cfg) && At(cfg, n).what.Sent? && p.inbox.value == MessageAt(cfg, n)
    requires p.transcript == Transcript(cfg, n)
    ensures p.Consume().transcript == Transcript(cfg, n + 1)
    ensures Items(cfg, n, n + 1) == [Hs(p.inbox.value)]
  {
    ItemsOne(cfg, n);
  }

  /** The common part of the cases below: a client whose state is `c` before a turn. */
  predicate Ready(cfg: Config, p: Party) {
    Honest(cfg) && PartyOk(cfg, p) && p.wait == Ok && Expected(cfg, p)
  }

  predicate Kept(cfg: Config, p: Party, q: Party) {
    PartyOk(cfg, q) && q.wait != Error && PartyOk(cfg, p) && Moves(cfg, p, q)
  }

  /** A place that is not empty bounds the search for the next one. */
  lemma NextBefore(cfg: Config, k: nat, n: nat)
    requires k <= n < Length(cfg) && !At(cfg, n).what.Absent?
    ensures k <= Next(cfg, k) <= n && !At(cfg, Next(cfg, k)).what.Absent?
    ensures k < n && At(cfg, k).what.Absent? ==> k < Next(cfg, k)
    ensures !At(cfg, k).what.Absent? ==> Next(cfg, k) == k
  {
  }

  lemma TranscriptStep(cfg: Config, k: nat)
    requires k < Length(cfg)
    ensures Transcript(cfg, k + 1) ==
      Transcript(cfg, k) + if At(cfg, k).what.Sent? then [MessageAt(cfg, k)] else []
    ensures At(cfg, k).what.Absent? ==> Transcript(cfg, k + 1) == Transcript(cfg, k)
  {
  }
}
