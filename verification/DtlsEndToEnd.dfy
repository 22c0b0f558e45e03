/**
 The DTLS handshake transport end to end: fragments of one flight reach the
 reader in any order, any number of times, split in any way, over any number of
 retransmissions, while the reader takes messages whenever they are complete.
 */
module DtlsEndToEnd {
  import opened Wrappers
  import opened DtlsFragments
  import opened DtlsReader
  import opened DtlsFlight
  import DtlsPackets
  import DtlsWriter

  // A flight: its messages and the sequence number of the first.
  datatype Flight = Flight(first: nat, msgs: seq<Message>) {

    predicate Fits(limit: nat) {
      && |msgs| <= DtlsReader.MAX_FLIGHT
      && forall m | m in msgs :: |m.body| <= limit
    }

    // A fragment of one of the flight's messages, with any bounds.
    predicate Has(f: Fragment) {
      && f.WireValid()
      && first <= f.hdr.seqNum < first + |msgs|
      && var m := msgs[f.hdr.seqNum - first];
         && f.hdr.typ == m.typ && f.hdr.msgLen == |m.body|
         && f.hdr.fragOff + |f.body| <= |m.body|
         && f.body == m.body[f.hdr.fragOff..f.hdr.fragOff + |f.body|]
    }

    // A fragment with byte `k` of message `i`; any fragment, if the message is
    // empty.
    predicate Carries(f: Fragment, i: nat, k: nat)
      requires i < |msgs|
    {
      f.hdr.seqNum == first + i && (msgs[i].body == [] || f.hdr.fragOff <= k < f.hdr.fragOff + |f.body|)
    }
  }

  datatype Event =
    | Record(fragments: seq<Fragment>)
    | Take

  // The reader, and the messages taken from it so far.
  datatype Delivery = Delivery(reader: ReaderState, taken: seq<Message>) {

    ghost function Step(e: Event): Option<Delivery>
      requires e.Record? ==> forall f | f in e.fragments :: f.WireValid()
    {
      match e
      case Take =>
        if reader.HasMessage() then Some(Delivery(reader.Next(), taken + [reader.Current()])) else Some(this)
      case Record(fs) =>
        var r := reader.ReadRecord(SerializeAll(fs));
        if r.None? then None else Some(Delivery(r.value, taken))
    }

    ghost function Run(events: seq<Event>): Option<Delivery>
      requires forall e | e in events && e.Record? :: forall f | f in e.fragments :: f.WireValid()
      decreases |events|
    {
      if events == [] then Some(this)
      else
        var d := Step(events[0]);
        if d.None? then None else d.value.Run(events[1..])
    }
  }

  // In the first encrypted epoch only the message in sequence is accepted.
  predicate OnTime(r: ReaderState, f: Fragment) {
    r.epoch == 1 ==> f.hdr.seqNum == r.readSeq
  }

  // Every fragment of the run is on time when it arrives.
  ghost predicate AllOnTime(d: Delivery, events: seq<Event>)
    requires forall e | e in events && e.Record? :: forall f | f in e.fragments :: f.WireValid()
    decreases |events|
  {
    events == [] ||
    var e := events[0];
    && (e.Record? ==> forall f | f in e.fragments :: OnTime(d.reader, f))
    && (d.Step(e).Some? ==> AllOnTime(d.Step(e).value, events[1..]))
  }

  ghost function AcceptAll(r: ReaderState, fs: seq<Fragment>): Option<ReaderState>
    decreases |fs|
  {
    if fs == [] then Some(r)
    else
      var next := r.Accept(fs[0]);
      if next.None? then None else AcceptAll(next.value, fs[1..])
  }

  // Reading a record is accepting its fragments one by one.
  lemma {:induction false} RecordIsFragments(r: ReaderState, fs: seq<Fragment>)
    requires forall f | f in fs :: f.WireValid()
    ensures r.ReadRecord(SerializeAll(fs)) == AcceptAll(r, fs)
    decreases |fs|
  {
    if fs != [] {
      ParseSerialize(fs[0], SerializeAll(fs[1..]));
      var next := r.Accept(fs[0]);
      if next.Some? {
        RecordIsFragments(next.value, fs[1..]);
      }
    }
  }

  // What is buffered for a message agrees with the message.
  ghost predicate PartOf(p: Partial, m: Message) {
    && p.typ == m.typ && p.msgLen == |m.body|
    && forall k | k in p.bytes :: k < |m.body| && p.bytes[k] == m.body[k]
  }

  ghost predicate Faithful(fl: Flight, r: ReaderState) {
    && fl.Fits(r.limit)
    && fl.first <= r.readSeq <= fl.first + |fl.msgs|
    && forall s | s in r.slots ::
         r.readSeq <= s < fl.first + |fl.msgs| && PartOf(r.slots[s], fl.msgs[s - fl.first])
  }

  // Byte `k` of message `i` (or, if it is empty, message `i`) has arrived.
  ghost predicate Arrived(fl: Flight, r: ReaderState, i: nat, k: nat)
    requires i < |fl.msgs|
  {
    || fl.first + i < r.readSeq
    || (fl.first + i in r.slots && (fl.msgs[i].body == [] || k in r.slots[fl.first + i].bytes))
  }

  // A fragment of the flight is accepted exactly when it is on time; it leaves
  // the reader faithful to the flight, and nothing that had arrived is lost.
  lemma AcceptFaithful(fl: Flight, r: ReaderState, f: Fragment)
    requires Faithful(fl, r) && fl.Has(f)
    ensures r.Accept(f).Some? <==> OnTime(r, f)
    ensures r.Accept(f).Some? ==>
              && Faithful(fl, r.Accept(f).value)
              && r.Accept(f).value.(slots := r.slots) == r
  {
    var h := f.hdr;
    var m := fl.msgs[h.seqNum - fl.first];
    assert m in fl.msgs;
    if r.readSeq <= h.seqNum {
      var p := r.Buffered(h);
      assert PartOf(p, m);
      var p' := p.Insert(h.fragOff, f.body);
      forall k | k in p'.bytes
        ensures k < |m.body| && p'.bytes[k] == m.body[k]
      {
        if h.fragOff <= k < h.fragOff + |f.body| {
          assert f.body[k - h.fragOff] == m.body[k];
        }
      }
      assert PartOf(p', m);
    }
  }

  lemma AcceptArrives(fl: Flight, r: ReaderState, f: Fragment, i: nat, k: nat)
    requires Faithful(fl, r) && fl.Has(f) && OnTime(r, f)
    requires i < |fl.msgs| && (k < |fl.msgs[i].body| || fl.msgs[i].body == [])
    requires Arrived(fl, r, i, k) || fl.Carries(f, i, k)
    ensures r.Accept(f).Some? && Arrived(fl, r.Accept(f).value, i, k)
  {
    AcceptFaithful(fl, r, f);
    assert fl.msgs[i] in fl.msgs;
  }

  lemma {:induction false} AllFaithful(fl: Flight, r: ReaderState, fs: seq<Fragment>)
    requires Faithful(fl, r) && forall f | f in fs :: fl.Has(f)
    ensures AcceptAll(r, fs).Some? <==> forall f | f in fs :: OnTime(r, f)
    ensures AcceptAll(r, fs).Some? ==>
              && Faithful(fl, AcceptAll(r, fs).value)
              && AcceptAll(r, fs).value.(slots := r.slots) == r
    decreases |fs|
  {
    if fs != [] {
      AcceptFaithful(fl, r, fs[0]);
      if OnTime(r, fs[0]) {
        var r' := r.Accept(fs[0]).value;
        AllFaithful(fl, r', fs[1..]);
        assert forall f :: OnTime(r', f) <==> OnTime(r, f);
        assert fs == [fs[0]] + fs[1..];
      }
    }
  }

  lemma {:induction false} AllArrives(fl: Flight, r: ReaderState, fs: seq<Fragment>, i: nat, k: nat)
    requires Faithful(fl, r) && forall f | f in fs :: fl.Has(f) && OnTime(r, f)
    requires i < |fl.msgs| && (k < |fl.msgs[i].body| || fl.msgs[i].body == [])
    requires Arrived(fl, r, i, k) || exists f :: f in fs && fl.Carries(f, i, k)
    ensures AcceptAll(r, fs).Some? && Arrived(fl, AcceptAll(r, fs).value, i, k)
    decreases |fs|
  {
    AllFaithful(fl, r, fs);
    if fs != [] {
      AcceptFaithful(fl, r, fs[0]);
      if Arrived(fl, r, i, k) || fl.Carries(fs[0], i, k) {
        AcceptArrives(fl, r, fs[0], i, k);
      } else {
        var f :| f in fs && fl.Carries(f, i, k);
        assert f in fs[1..];
      }
      var r' := r.Accept(fs[0]).value;
      assert forall f | f in fs[1..] :: f in fs && (OnTime(r', f) <==> OnTime(r, f));
      AllArrives(fl, r', fs[1..], i, k);
    }
  }

  // The messages taken are the first messages of the flight.
  ghost predicate Delivering(fl: Flight, d: Delivery) {
    && Faithful(fl, d.reader)
    && |d.taken| == d.reader.readSeq - fl.first
    && d.taken == fl.msgs[..|d.taken|]
  }

  ghost predicate OfFlight(fl: Flight, events: seq<Event>) {
    forall e | e in events && e.Record? :: forall f | f in e.fragments :: fl.Has(f)
  }

  lemma CurrentIsNext(fl: Flight, d: Delivery)
    requires Delivering(fl, d) && d.reader.HasMessage()
    ensures |d.taken| < |fl.msgs| && d.reader.Current() == fl.msgs[|d.taken|]
  {
    var p := d.reader.slots[d.reader.readSeq];
    assert p.Body() == fl.msgs[|d.taken|].body;
  }

  lemma StepDelivers(fl: Flight, d: Delivery, e: Event)
    requires Delivering(fl, d) && OfFlight(fl, [e])
    ensures e.Record? ==> forall f | f in e.fragments :: f.WireValid()
    ensures d.Step(e).Some? <==> e.Take? || forall f | f in e.fragments :: OnTime(d.reader, f)
    ensures d.Step(e).Some? ==> Delivering(fl, d.Step(e).value)
  {
    assert e in [e];
    if e.Take? {
      if d.reader.HasMessage() {
        CurrentIsNext(fl, d);
      }
    } else {
      RecordIsFragments(d.reader, e.fragments);
      AllFaithful(fl, d.reader, e.fragments);
    }
  }

  // Safety.  However records arrive and messages are taken, a run over the
  // fragments of a flight fails exactly when a fragment is not on time, and the
  // messages taken are always the first messages of the flight, unchanged, in
  // order and once each.
  lemma {:induction false} RunDelivers(fl: Flight, d: Delivery, events: seq<Event>)
    requires Delivering(fl, d) && OfFlight(fl, events)
    ensures d.Run(events).Some? <==> AllOnTime(d, events)
    ensures d.Run(events).Some? ==> Delivering(fl, d.Run(events).value)
    decreases |events|
  {
    if events != [] {
      assert events[0] in events;
      StepDelivers(fl, d, events[0]);
      if d.Step(events[0]).Some? {
        RunDelivers(fl, d.Step(events[0]).value, events[1..]);
      }
    }
  }

  lemma StepArrives(fl: Flight, d: Delivery, e: Event, i: nat, k: nat)
    requires Delivering(fl, d) && OfFlight(fl, [e])
    requires e.Record? ==> forall f | f in e.fragments :: OnTime(d.reader, f)
    requires i < |fl.msgs| && (k < |fl.msgs[i].body| || fl.msgs[i].body == [])
    requires Arrived(fl, d.reader, i, k) || (e.Record? && exists f :: f in e.fragments && fl.Carries(f, i, k))
    ensures e.Record? ==> forall f | f in e.fragments :: f.WireValid()
    ensures d.Step(e).Some? && Arrived(fl, d.Step(e).value.reader, i, k)
  {
    assert e in [e];
    StepDelivers(fl, d, e);
    if e.Record? {
      RecordIsFragments(d.reader, e.fragments);
      AllArrives(fl, d.reader, e.fragments, i, k);
    }
  }

  // Some record of the run carries byte `k` of message `i`.
  ghost predicate Carried(fl: Flight, events: seq<Event>, i: nat, k: nat)
    requires i < |fl.msgs|
  {
    exists e :: e in events && e.Record? && exists f :: f in e.fragments && fl.Carries(f, i, k)
  }

  lemma {:induction false} RunArrives(fl: Flight, d: Delivery, events: seq<Event>, i: nat, k: nat)
    requires Delivering(fl, d) && OfFlight(fl, events) && AllOnTime(d, events)
    requires i < |fl.msgs| && (k < |fl.msgs[i].body| || fl.msgs[i].body == [])
    requires Arrived(fl, d.reader, i, k) || Carried(fl, events, i, k)
    ensures d.Run(events).Some? && Arrived(fl, d.Run(events).value.reader, i, k)
    decreases |events|
  {
    if events != [] {
      var e := events[0];
      assert e in events;
      StepDelivers(fl, d, e);
      if Arrived(fl, d.reader, i, k) || (e.Record? && exists f :: f in e.fragments && fl.Carries(f, i, k)) {
        StepArrives(fl, d, e, i, k);
      } else {
        var e' :| e' in events && e'.Record? && exists f :: f in e'.fragments && fl.Carries(f, i, k);
        assert e' in events[1..];
      }
      RunArrives(fl, d.Step(e).value, events[1..], i, k);
    }
  }

  function Takes(n: nat): (es: seq<Event>)
    ensures |es| == n && forall e | e in es :: e == Take
  {
    if n == 0 then [] else [Take] + Takes(n - 1)
  }

  ghost predicate AllArrived(fl: Flight, r: ReaderState) {
    forall i: nat, k: nat | i < |fl.msgs| && (k < |fl.msgs[i].body| || fl.msgs[i].body == []) ::
      Arrived(fl, r, i, k)
  }

  lemma {:induction false} TakeRest(fl: Flight, d: Delivery, n: nat)
    requires Delivering(fl, d) && AllArrived(fl, d.reader) && n >= |fl.msgs| - |d.taken|
    ensures d.Run(Takes(n)).Some? && d.Run(Takes(n)).value.taken == fl.msgs
    decreases n
  {
    if n > 0 {
      StepDelivers(fl, d, Take);
      var d' := d.Step(Take).value;
      var i := |d.taken|;
      if i < |fl.msgs| {
        assert Arrived(fl, d.reader, i, 0);
        var p := d.reader.slots[fl.first + i];
        forall k: nat | k < p.msgLen
          ensures k in p.bytes.Keys
        {
          assert Arrived(fl, d.reader, i, k);
        }
        assert d.reader.HasMessage();
      } else {
        assert !d.reader.HasMessage() by {
          if d.reader.HasMessage() {
            CurrentIsNext(fl, d);
          }
        }
      }
      forall j: nat, k: nat | j < |fl.msgs| && (k < |fl.msgs[j].body| || fl.msgs[j].body == [])
        ensures Arrived(fl, d'.reader, j, k)
      {
        assert Arrived(fl, d.reader, j, k);
      }
      TakeRest(fl, d', n - 1);
    }
  }

  lemma {:induction false} RunConcat(d: Delivery, a: seq<Event>, b: seq<Event>)
    requires forall e | e in a + b && e.Record? :: forall f | f in e.fragments :: f.WireValid()
    requires d.Run(a).Some?
    ensures d.Run(a + b) == d.Run(a).value.Run(b)
    decreases |a|
  {
    if a == [] {
      assert a + b == b;
    } else {
      assert (a + b)[1..] == a[1..] + b;
      assert a[0] in a + b;
      assert forall e | e in a[1..] + b :: e in a + b;
      RunConcat(d.Step(a[0]).value, a[1..], b);
    }
  }

  // ----- Which runs are on time --------------------------------------------------------

  lemma {:induction false} ReadKeepsEpoch(r: ReaderState, record: seq<byte>)
    ensures r.ReadRecord(record).Some? ==> r.ReadRecord(record).value.epoch == r.epoch
    decreases |record|
  {
    hide ReaderState.Accept;
    if record != [] && Parse(record).Some? {
      var (f, rest) := Parse(record).value;
      AcceptKeepsEpoch(r, f);
      if r.Accept(f).Some? {
        ReadKeepsEpoch(r.Accept(f).value, rest);
      }
    }
  }

  lemma AcceptKeepsEpoch(r: ReaderState, f: Fragment)
    ensures r.Accept(f).Some? ==> r.Accept(f).value.epoch == r.epoch
  {
  }

  // Outside the first encrypted epoch every order is on time.
  lemma {:induction false} AnyOrder(d: Delivery, events: seq<Event>)
    requires forall e | e in events && e.Record? :: forall f | f in e.fragments :: f.WireValid()
    requires d.reader.epoch != 1
    ensures AllOnTime(d, events)
    decreases |events|
  {
    hide ReaderState.ReadRecord, ReaderState.HasMessage, ReaderState.Current;
    if events != [] {
      var e := events[0];
      assert e in events;
      if e.Record? {
        ReadKeepsEpoch(d.reader, SerializeAll(e.fragments));
      }
      if d.Step(e).Some? {
        AnyOrder(d.Step(e).value, events[1..]);
      }
    }
  }

  // Some of the fragments carry each byte of message `i`; some fragment is there if it is empty.
  ghost predicate AllCarried(fl: Flight, i: nat, fs: seq<Fragment>)
    requires i < |fl.msgs|
  {
    forall k: nat | k < |fl.msgs[i].body| || fl.msgs[i].body == [] :: CarriedBy(fl, fs, i, k)
  }

  ghost predicate CarriedBy(fl: Flight, fs: seq<Fragment>, i: nat, k: nat)
    requires i < |fl.msgs|
  {
    exists f :: f in fs && fl.Carries(f, i, k)
  }

  // What the first encrypted epoch asks of the order: a record only has
  // fragments of the message in turn.  The turn passes when a message is taken
  // that is wholly carried by the fragments `fs` since it began.
  ghost predicate InTurn(fl: Flight, i: nat, fs: seq<Fragment>, events: seq<Event>)
    decreases |events|
  {
    events == [] ||
    match events[0]
    case Record(more) =>
      && (forall f | f in more :: f.hdr.seqNum == fl.first + i)
      && InTurn(fl, i, fs + more, events[1..])
    case Take =>
      if i < |fl.msgs| && AllCarried(fl, i, fs) then InTurn(fl, i + 1, [], events[1..])
      else InTurn(fl, i, fs, events[1..])
  }

  predicate Spans(f: Fragment, k: nat) {
    f.hdr.fragOff <= k < f.hdr.fragOff + |f.body|
  }

  // The reader holds the bytes of the fragments `fs`, all of message `i`, and nothing else.
  ghost predicate Holds(fl: Flight, r: ReaderState, i: nat, fs: seq<Fragment>) {
    && Faithful(fl, r) && r.epoch == 1 && r.readSeq == fl.first + i
    && (forall f | f in fs :: fl.Has(f) && f.hdr.seqNum == fl.first + i)
    && (forall s | s in r.slots :: s == r.readSeq)
    && (r.readSeq in r.slots <==> fs != [])
    && (r.readSeq in r.slots ==>
          forall k: nat :: k in r.slots[r.readSeq].bytes <==> exists f :: f in fs && Spans(f, k))
  }

  lemma AcceptHolds(fl: Flight, r: ReaderState, i: nat, fs: seq<Fragment>, f: Fragment)
    requires Holds(fl, r, i, fs) && fl.Has(f) && f.hdr.seqNum == fl.first + i
    ensures r.Accept(f).Some? && Holds(fl, r.Accept(f).value, i, fs + [f])
  {
    hide ReaderState.Accept, Faithful, Flight.Has;
    AcceptFaithful(fl, r, f);
    BufferedKeys(fl, r, f);
    var r' := r.Accept(f).value;
    forall k: nat
      ensures k in r'.slots[r.readSeq].bytes <==> exists g :: g in fs + [f] && Spans(g, k)
    {
      BufferedAt(fl, r, f, k);
      SpansMore(fs, f, k);
    }
  }

  lemma SpansMore(fs: seq<Fragment>, f: Fragment, k: nat)
    ensures (exists g :: g in fs + [f] && Spans(g, k)) <==> (exists g :: g in fs && Spans(g, k)) || Spans(f, k)
  {
    assert f in fs + [f];
    if g :| g in fs && Spans(g, k) {
      assert g in fs + [f];
    }
  }

  lemma BufferedKeys(fl: Flight, r: ReaderState, f: Fragment)
    requires Faithful(fl, r) && fl.Has(f) && OnTime(r, f) && r.readSeq <= f.hdr.seqNum && r.Accept(f).Some?
    ensures r.Accept(f).value.slots.Keys == r.slots.Keys + {f.hdr.seqNum}
  {
    assert fl.msgs[f.hdr.seqNum - fl.first] in fl.msgs;
  }

  lemma BufferedAt(fl: Flight, r: ReaderState, f: Fragment, k: nat)
    requires Faithful(fl, r) && fl.Has(f) && OnTime(r, f) && r.readSeq <= f.hdr.seqNum && r.Accept(f).Some?
    ensures f.hdr.seqNum in r.Accept(f).value.slots
    ensures k in r.Accept(f).value.slots[f.hdr.seqNum].bytes <==>
            (f.hdr.seqNum in r.slots && k in r.slots[f.hdr.seqNum].bytes) || Spans(f, k)
  {
    var m := fl.msgs[f.hdr.seqNum - fl.first];
    assert m in fl.msgs;
    var p := r.Buffered(f.hdr);
    assert PartOf(p, m);
  }

  lemma {:induction false} AllHolds(fl: Flight, r: ReaderState, i: nat, fs: seq<Fragment>, more: seq<Fragment>)
    requires Holds(fl, r, i, fs) && forall f | f in more :: fl.Has(f) && f.hdr.seqNum == fl.first + i
    ensures AcceptAll(r, more).Some? && Holds(fl, AcceptAll(r, more).value, i, fs + more)
    decreases |more|
  {
    hide Holds, ReaderState.Accept;
    if more == [] {
      assert fs + more == fs;
    } else {
      assert more[0] in more && forall f | f in more[1..] :: f in more;
      AcceptHolds(fl, r, i, fs, more[0]);
      AllHolds(fl, r.Accept(more[0]).value, i, fs + [more[0]], more[1..]);
      assert fs + [more[0]] + more[1..] == fs + more;
    }
  }

  lemma TakeHolds(fl: Flight, r: ReaderState, i: nat, fs: seq<Fragment>)
    requires Holds(fl, r, i, fs)
    ensures r.HasMessage() <==> i < |fl.msgs| && AllCarried(fl, i, fs)
    ensures r.HasMessage() ==> Holds(fl, r.Next(), i + 1, [])
  {
    if i < |fl.msgs| {
      var m := fl.msgs[i];
      assert forall f | f in fs, k: nat :: fl.Carries(f, i, k) <==> m.body == [] || Spans(f, k);
      if r.HasMessage() {
        assert fs[0] in fs;
        forall k: nat | k < |m.body| || m.body == []
          ensures CarriedBy(fl, fs, i, k)
        {
          if m.body == [] {
            assert fl.Carries(fs[0], i, k);
          } else {
            assert k in r.slots[r.readSeq].bytes.Keys;
            var f :| f in fs && Spans(f, k);
            assert fl.Carries(f, i, k);
          }
        }
      }
      if AllCarried(fl, i, fs) {
        assert CarriedBy(fl, fs, i, 0);
        forall k: nat | k < |m.body|
          ensures k in r.slots[r.readSeq].bytes.Keys
        {
          assert CarriedBy(fl, fs, i, k);
        }
      }
    }
  }

  // In the first encrypted epoch a run is on time exactly if its fragments come in turn.
  lemma {:induction false} OnTimeInTurn(fl: Flight, d: Delivery, events: seq<Event>, i: nat, fs: seq<Fragment>)
    requires OfFlight(fl, events) && Holds(fl, d.reader, i, fs)
    ensures forall e | e in events && e.Record? :: forall f | f in e.fragments :: f.WireValid()
    ensures AllOnTime(d, events) <==> InTurn(fl, i, fs, events)
    decreases |events|
  {
    assert forall e | e in events && e.Record? :: forall f | f in e.fragments :: fl.Has(f);
    if events != [] {
      hide ReaderState.Accept, ReaderState.ReadRecord, Faithful, AllCarried, ReaderState.HasMessage, ReaderState.Next,
        ReaderState.Current;
      var e, rest := events[0], events[1..];
      assert e in events && forall e' | e' in rest :: e' in events;
      if e.Take? {
        TakeHolds(fl, d.reader, i, fs);
        if d.reader.HasMessage() {
          OnTimeInTurn(fl, d.Step(e).value, rest, i + 1, []);
        } else {
          OnTimeInTurn(fl, d, rest, i, fs);
        }
      } else if forall f | f in e.fragments :: OnTime(d.reader, f) {
        AllHolds(fl, d.reader, i, fs, e.fragments);
        RecordIsFragments(d.reader, e.fragments);
        OnTimeInTurn(fl, d.Step(e).value, rest, i, fs + e.fragments);
      }
    }
  }

  // What the order of arrival must be for a read not to fail: nothing outside
  // the first encrypted epoch, and in it that fragments come in turn.
  ghost predicate GoodOrder(fl: Flight, reader: ReaderState, events: seq<Event>) {
    reader.epoch == 1 ==> InTurn(fl, 0, [], events)
  }

  // A run over the fragments of a flight succeeds exactly if the order is good.
  lemma SucceedsExactly(fl: Flight, reader: ReaderState, events: seq<Event>)
    requires fl.Fits(reader.limit) && reader.readSeq == fl.first && reader.slots == map[]
    requires OfFlight(fl, events)
    ensures forall e | e in events && e.Record? :: forall f | f in e.fragments :: f.WireValid()
    ensures AllOnTime(Delivery(reader, []), events) <==> GoodOrder(fl, reader, events)
    ensures Delivery(reader, []).Run(events).Some? <==> GoodOrder(fl, reader, events)
  {
    var d := Delivery(reader, []);
    assert forall e | e in events && e.Record? :: forall f | f in e.fragments :: fl.Has(f);
    RunDelivers(fl, d, events);
    if reader.epoch == 1 {
      OnTimeInTurn(fl, d, events, 0, []);
    } else {
      AnyOrder(d, events);
    }
  }

  // Why the order matters in the first encrypted epoch: a retransmission of the
  // one message there, behind a copy that has already been taken, makes the
  // read fail.  In any other epoch it is ignored.
  lemma DuplicateFails(first: nat, m: Message, epoch: nat, limit: nat)
    requires first < 0x1_0000 && |m.body| < 0x100_0000 && |m.body| <= limit
    ensures var f := Fragment(Header(m.typ, |m.body|, first, 0, |m.body|), m.body);
            var events := [Record([f]), Take, Record([f])];
            var reader := ReaderState(epoch, limit, first, map[]);
            && OfFlight(Flight(first, [m]), events)
            && (Delivery(reader, []).Run(events) == None <==> epoch == 1)
  {
    var fl := Flight(first, [m]);
    var f := Fragment(Header(m.typ, |m.body|, first, 0, |m.body|), m.body);
    var events := [Record([f]), Take, Record([f])];
    var reader := ReaderState(epoch, limit, first, map[]);
    assert f.body == m.body[0..|m.body|];
    assert fl.Has(f);
    SucceedsExactly(fl, reader, events);
    assert f in [] + [f];
    assert AllCarried(fl, 0, [] + [f]) by {
      forall k: nat | k < |m.body| || m.body == []
        ensures CarriedBy(fl, [] + [f], 0, k)
      {
        assert fl.Carries(f, 0, k);
      }
    }
    assert events[1..] == [Take, Record([f])] && events[1..][1..] == [Record([f])];
    assert f in [f];
    assert !InTurn(fl, 1, [], [Record([f])]);
    assert InTurn(fl, 0, [] + [f], [Take, Record([f])]) == InTurn(fl, 1, [], [Record([f])]);
  }

  // Liveness.  If every byte of every message (and some fragment of every empty
  // message) reaches the reader at least once, in any order, with any
  // duplication, and however the application interleaves its reads, then
  // reading on delivers exactly the flight.  Only in the first encrypted epoch
  // must the fragments come in turn.
  lemma EndToEnd(fl: Flight, reader: ReaderState, events: seq<Event>)
    requires fl.Fits(reader.limit) && reader.readSeq == fl.first && reader.slots == map[]
    requires OfFlight(fl, events) && GoodOrder(fl, reader, events)
    requires forall i: nat, k: nat | i < |fl.msgs| && (k < |fl.msgs[i].body| || fl.msgs[i].body == []) ::
               Carried(fl, events, i, k)
    ensures var d := Delivery(reader, []).Run(events + Takes(|fl.msgs|));
            d.Some? && d.value.taken == fl.msgs
  {
    var start := Delivery(reader, []);
    SucceedsExactly(fl, reader, events);
    RunDelivers(fl, start, events);
    var d := start.Run(events).value;
    forall i: nat, k: nat | i < |fl.msgs| && (k < |fl.msgs[i].body| || fl.msgs[i].body == [])
      ensures Arrived(fl, d.reader, i, k)
    {
      RunArrives(fl, start, events, i, k);
    }
    TakeRest(fl, d, |fl.msgs|);
    RunConcat(start, events, Takes(|fl.msgs|));
  }

  // A flight as the sender queues it.
  predicate Queued(fl: Flight, outs: seq<Outgoing>) {
    && |outs| == |fl.msgs|
    && forall i | 0 <= i < |outs| ::
         && !outs[i].isCcs && outs[i].Whole().Some?
         && var m := fl.msgs[i];
            outs[i].Whole().value == Fragment(Header(m.typ, |m.body|, fl.first + i, 0, |m.body|), m.body)
  }

  // Every fragment a sender cuts from the flight, at any MTU, is a fragment of
  // the flight.
  lemma {:induction false} SentOfFlight(fl: Flight, outs: seq<Outgoing>, cur: Cursor, cs: seq<Chunk>, j: nat)
    requires Queued(fl, outs) && CursorIn(outs, cur) && AdvanceAll(outs, cur, cs).Some? && j < |cs|
    ensures cs[j].FragmentChunk? && fl.Has(cs[j].fragment)
    decreases |cs|
  {
    hide Outgoing.Whole, Remaining, ChunkBytes;
    if j > 0 {
      AdvanceTiles(outs, cur, cs[0]);
      SentOfFlight(fl, outs, Advance(outs, cur, cs[0]).value, cs[1..], j - 1);
    }
  }

  // The two halves together: once a pass over the flight has been sent in full
  // and each of its fragments has reached the reader at least once, reading on
  // delivers exactly the flight.
  lemma SenderToReader(fl: Flight, outs: seq<Outgoing>, pass: seq<Chunk>, reader: ReaderState, events: seq<Event>)
    requires fl.Fits(reader.limit) && reader.readSeq == fl.first && reader.slots == map[]
    requires Queued(fl, outs) && AdvanceAll(outs, START, pass) == Some(Cursor(|outs|, 0))
    requires OfFlight(fl, events) && GoodOrder(fl, reader, events)
    requires forall c | c in pass ::
               exists e :: e in events && e.Record? && c.FragmentChunk? && c.fragment in e.fragments
    ensures var d := Delivery(reader, []).Run(events + Takes(|fl.msgs|));
            d.Some? && d.value.taken == fl.msgs
  {
    forall i: nat, k: nat | i < |fl.msgs| && (k < |fl.msgs[i].body| || fl.msgs[i].body == [])
      ensures Carried(fl, events, i, k)
    {
      EveryByteSent(outs, START, pass, i, k);
      var j :| 0 <= j < |pass| && DtlsFlight.Carries(outs, i, k, pass[j]);
      assert pass[j] in pass;
      var e :| e in events && e.Record? && pass[j].fragment in e.fragments;
      assert fl.Carries(pass[j].fragment, i, k);
    }
    EndToEnd(fl, reader, events);
  }

  // A record that holds the bytes of one fragment reads as that fragment.
  lemma RecordHolds(f: Fragment, fs: seq<Fragment>)
    requires f.WireValid() && (forall g | g in fs :: g.WireValid()) && SerializeAll(fs) == Serialize(f)
    ensures f in fs
  {
    assert fs != [];
    ParseSerialize(f, []);
    ParseSerialize(fs[0], SerializeAll(fs[1..]));
    assert Serialize(f) + [] == Serialize(f);
  }

  // The same for what travels.  The sender's records, of a pass over the whole
  // flight, protect certain bytes; if those of every record reach the reader at
  // least once, reading on delivers exactly the flight.
  lemma RecordsToReader(fl: Flight, outs: seq<Outgoing>, pass: seq<Chunk>, records: seq<DtlsWriter.SealedRecord>,
                        reader: ReaderState, events: seq<Event>)
    requires fl.Fits(reader.limit) && reader.readSeq == fl.first && reader.slots == map[]
    requires Queued(fl, outs) && AdvanceAll(outs, START, pass) == Some(Cursor(|outs|, 0))
    requires DtlsPackets.Carry(records, outs, START, pass)
    requires OfFlight(fl, events) && GoodOrder(fl, reader, events)
    requires forall r | r in records :: exists e :: e in events && e.Record? && SerializeAll(e.fragments) == r.plain
    ensures var d := Delivery(reader, []).Run(events + Takes(|fl.msgs|));
            d.Some? && d.value.taken == fl.msgs
  {
    forall c | c in pass
      ensures exists e :: e in events && e.Record? && c.FragmentChunk? && c.fragment in e.fragments
    {
      var j :| 0 <= j < |pass| && pass[j] == c;
      SentOfFlight(fl, outs, START, pass, j);
      DtlsPackets.CarryAt(records, outs, START, pass, j);
      assert records[j] in records;
      var e :| e in events && e.Record? && SerializeAll(e.fragments) == records[j].plain;
      RecordHolds(c.fragment, e.fragments);
    }
    SenderToReader(fl, outs, pass, reader, events);
  }
}
