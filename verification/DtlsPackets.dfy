/**
 What goes into a packet: how the next message of a flight is cut and sealed,
 what a whole packet then holds, and what packets one after another carry.
 */
module DtlsPackets {
  import opened Wrappers
  import opened DtlsFragments
  import opened DtlsFlight
  import opened DtlsWriter

  // The length of some records on the wire.
  function WireLen(records: seq<SealedRecord>): nat {
    if records == [] then 0 else WireLen(records[..|records| - 1]) + records[|records| - 1].wireLen
  }

  // The records of some packets, in order.
  function Flat(packets: seq<seq<SealedRecord>>): seq<SealedRecord> {
    if packets == [] then [] else Flat(packets[..|packets| - 1]) + packets[|packets| - 1]
  }

  // A record protects a chunk of the flight under the epoch of its message.
  predicate Protects(r: SealedRecord, c: Chunk, epoch: nat) {
    && r.number.epoch == epoch
    && match c
       case CcsChunk => r.kind == CHANGE_CIPHER_SPEC && r.plain == [1]
       case FragmentChunk(f) => r.kind == HANDSHAKE && f.WireValid() && r.plain == Serialize(f)
  }

  // What the records of a packet protect is the given chunks of the flight, each under the epoch
  // its message was queued in.
  ghost predicate Carry(records: seq<SealedRecord>, msgs: seq<Outgoing>, cur: Cursor, cs: seq<Chunk>)
    decreases |cs|
  {
    if cs == [] || records == [] then cs == [] && records == []
    else
      && cur.written < |msgs| && Protects(records[0], cs[0], msgs[cur.written].epoch)
      && Advance(msgs, cur, cs[0]).Some?
      && Carry(records[1..], msgs, Advance(msgs, cur, cs[0]).value, cs[1..])
  }

  lemma {:induction false} CarryConcat(rs: seq<SealedRecord>, more: seq<SealedRecord>, msgs: seq<Outgoing>,
                                       cur: Cursor, cs: seq<Chunk>, ds: seq<Chunk>)
    requires AdvanceAll(msgs, cur, cs).Some? && Carry(rs, msgs, cur, cs)
    requires Carry(more, msgs, AdvanceAll(msgs, cur, cs).value, ds)
    ensures Carry(rs + more, msgs, cur, cs + ds)
    decreases |cs|
  {
    hide Advance, Protects;
    if cs == [] {
      assert rs + more == more && cs + ds == ds;
    } else {
      assert (rs + more)[1..] == rs[1..] + more && (cs + ds)[1..] == cs[1..] + ds;
      CarryConcat(rs[1..], more, msgs, Advance(msgs, cur, cs[0]).value, cs[1..], ds);
    }
  }

  lemma {:induction false} CarryAt(rs: seq<SealedRecord>, msgs: seq<Outgoing>, cur: Cursor, cs: seq<Chunk>, j: nat)
    requires Carry(rs, msgs, cur, cs) && j < |cs|
    ensures |rs| == |cs| && Protects(rs[j], cs[j], rs[j].number.epoch)
    decreases |cs|
  {
    hide Advance;
    var next := Advance(msgs, cur, cs[0]).value;
    if j > 0 {
      CarryAt(rs[1..], msgs, next, cs[1..], j - 1);
    } else if |cs| > 1 {
      CarryAt(rs[1..], msgs, next, cs[1..], 0);
    }
  }

  // ----- The next record ---------------------------------------------------------------

  // The epoch whose cipher protects a message, if it is still at hand.
  function EpochFor(m: Outgoing, epoch: nat): Option<UseEpoch> {
    if epoch >= 1 && m.epoch == epoch - 1 then Some(PreviousEpoch)
    else if m.epoch == epoch then Some(CurrentEpoch)
    else None
  }

  // Not even one byte of the message fits into `maxOut` bytes.
  predicate NoRoom(c: Ciphers, epoch: nat, m: Outgoing, maxOut: nat) {
    var use := EpochFor(m, epoch);
    && use.Some?
    && if m.isCcs then maxOut < 1 + c.MaxSealOverhead(use.value)
       else maxOut < HEADER_LENGTH + 1 + c.MaxSealOverhead(use.value) || maxOut < c.SealPrefixLen(use.value)
  }

  // How many body bytes `maxOut` bytes hold.
  function Fills(c: Ciphers, epoch: nat, m: Outgoing, maxOut: nat): int {
    var use := EpochFor(m, epoch);
    if use.None? then 0 else maxOut - HEADER_LENGTH - c.MaxSealOverhead(use.value)
  }

  // What a record of the flight protects.
  function KindOf(c: Chunk): nat {
    if c.CcsChunk? then CHANGE_CIPHER_SPEC else HANDSHAKE
  }

  function PlainOf(c: Chunk): seq<byte>
    requires c.FragmentChunk? ==> c.fragment.WireValid()
  {
    if c.CcsChunk? then [1] else Serialize(c.fragment)
  }

  // There is an epoch to send the message under, and it is one message from
  // which `offset` bytes can have been sent.
  predicate Sendable(m: Outgoing, offset: nat, epoch: nat) {
    EpochFor(m, epoch).Some? && (m.isCcs || (m.Whole().Some? && offset <= |m.Whole().value.body|))
  }

  // The piece of a message that goes into `maxOut` bytes: all of the rest, or
  // as much as fits.
  function Piece(c: Ciphers, epoch: nat, m: Outgoing, offset: nat, maxOut: nat): (p: Chunk)
    requires Sendable(m, offset, epoch) && !NoRoom(c, epoch, m, maxOut)
    ensures p.FragmentChunk? ==> p.fragment.WireValid()
  {
    if m.isCcs then CcsChunk
    else
      var whole := m.Whole().value;
      var rest := |whole.body| - offset;
      var todo := if rest > Fills(c, epoch, m, maxOut) then Fills(c, epoch, m, maxOut) else rest;
      FragmentChunk(Fragment(whole.hdr.(fragOff := offset, fragLen := todo), whole.body[offset..offset + todo]))
  }

  datatype Attempted =
    | Refused(after: Numbers)
    | Stuck
    | Made(record: SealedRecord, chunk: Chunk, after: Numbers)

  // An attempt to send what comes next of a message.  It is refused when there
  // is no epoch for the message, the message is malformed, or sealing fails.
  function SealNext(c: Ciphers, n: Numbers, m: Outgoing, offset: nat, maxOut: nat): Attempted {
    if !Sendable(m, offset, n.epoch) then Refused(n)
    else if NoRoom(c, n.epoch, m, maxOut) then Stuck
    else
      var chunk := Piece(c, n.epoch, m, offset, maxOut);
      var event := Attempt(c, n, KindOf(chunk), PlainOf(chunk), maxOut, EpochFor(m, n.epoch).value);
      var number := n.Emits(event);
      if number.None? then Refused(n.Step(event))
      else
        var record := SealedRecord(number.value, KindOf(chunk), PlainOf(chunk),
          RECORD_HEADER + event.ciphertextLen.value);
        Made(record, chunk, n.Step(event))
  }

  // ----- The next packet ---------------------------------------------------------------

  // What a packet comes to: its records and the chunks in them, the cursor and
  // the numbers behind it, and whether a record was refused.
  datatype Filled = Filled(records: seq<SealedRecord>, chunks: seq<Chunk>, cur: Cursor, after: Numbers, failed: bool) {
    function Behind(rs: seq<SealedRecord>, cs: seq<Chunk>): Filled {
      this.(records := rs + records, chunks := cs + chunks)
    }
  }

  // Records are added until a message is cut short, does not fit or is refused.
  ghost function PacketOf(c: Ciphers, msgs: seq<Outgoing>, cur: Cursor, n: Numbers, room: int): Filled
    decreases |msgs| - cur.written
  {
    if cur.written >= |msgs| || room < 0 then Filled([], [], cur, n, false)
    else
      match SealNext(c, n, msgs[cur.written], cur.offset, room)
      case Refused(after) => Filled([], [], cur, after, true)
      case Stuck => Filled([], [], cur, n, false)
      case Made(record, chunk, after) =>
        var next := Advance(msgs, cur, chunk);
        if next.None? || next.value.written == cur.written then
          Filled([record], [chunk], if next.Some? then next.value else cur, after, false)
        else PacketOf(c, msgs, next.value, after, room - record.wireLen).Behind([record], [chunk])
  }

  // The numbers once some records have been sealed.
  function Numbered(n: Numbers, records: seq<SealedRecord>): (after: Numbers)
    ensures after.epoch == n.epoch
  {
    if records == [] then n
    else
      var r := records[|records| - 1];
      Numbered(n, records[..|records| - 1]).Bump(if r.number.epoch == n.epoch then CurrentEpoch else PreviousEpoch)
  }

  lemma NumberedOne(n: Numbers, records: seq<SealedRecord>, r: SealedRecord)
    ensures Numbered(n, records + [r]) ==
            Numbered(n, records).Bump(if r.number.epoch == n.epoch then CurrentEpoch else PreviousEpoch)
  {
    assert (records + [r])[..|records|] == records;
  }

  lemma {:induction false} NumberedConcat(n: Numbers, a: seq<SealedRecord>, b: seq<SealedRecord>)
    ensures Numbered(n, a + b) == Numbered(Numbered(n, a), b)
    decreases |b|
  {
    if b == [] {
      assert a + b == a;
    } else {
      var front, last := b[..|b| - 1], b[|b| - 1];
      NumberedConcat(n, a, front);
      NumberedOne(n, a + front, last);
      assert a + front + [last] == a + b;
    }
  }

  // ----- Filling a packet record by record ----------------------------------------------

  // A packet of at most `maxOut` bytes that was begun at `begin` with numbers
  // `n0` has got these records; what comes of it is they and a packet of the
  // room left, from the cursor and the numbers behind them.
  ghost predicate Filling(c: Ciphers, msgs: seq<Outgoing>, begin: Cursor, n0: Numbers, maxOut: nat,
                          records: seq<SealedRecord>, chunks: seq<Chunk>, cur: Cursor, n: Numbers, room: int)
  {
    && Consecutive(msgs, begin, n0, records, chunks, cur, n)
    && WireLen(records) + room == maxOut && (chunks == [] <==> WireLen(records) == 0)
    && PacketOf(c, msgs, begin, n0, maxOut) == PacketOf(c, msgs, cur, n, room).Behind(records, chunks)
  }

  // The records carry the chunks from `begin` up to `cur` and use up numbers from `n0` up to `n`.
  ghost predicate Consecutive(msgs: seq<Outgoing>, begin: Cursor, n0: Numbers, records: seq<SealedRecord>,
                              chunks: seq<Chunk>, cur: Cursor, n: Numbers)
  {
    && AdvanceAll(msgs, begin, chunks) == Some(cur) && Carry(records, msgs, begin, chunks)
    && n == Numbered(n0, records)
  }

  lemma FillingStart(c: Ciphers, msgs: seq<Outgoing>, begin: Cursor, n0: Numbers, maxOut: nat)
    ensures Filling(c, msgs, begin, n0, maxOut, [], [], begin, n0, maxOut)
  {
    hide PacketOf;
    var f := PacketOf(c, msgs, begin, n0, maxOut);
    assert [] + f.records == f.records && [] + f.chunks == f.chunks;
  }

  lemma NothingYet(msgs: seq<Outgoing>, begin: Cursor, n0: Numbers)
    ensures Consecutive(msgs, begin, n0, Flat([]), [], begin, n0)
  {
  }

  // One more packet behind those already sent.
  lemma PacketTaken(msgs: seq<Outgoing>, begin: Cursor, n0: Numbers, packets: seq<seq<SealedRecord>>, sent: seq<Chunk>,
                    cur: Cursor, n: Numbers, records: seq<SealedRecord>, chunks: seq<Chunk>, next: Cursor, n': Numbers)
    requires Consecutive(msgs, begin, n0, Flat(packets), sent, cur, n)
    requires Consecutive(msgs, cur, n, records, chunks, next, n')
    ensures Consecutive(msgs, begin, n0, Flat(packets + [records]), sent + chunks, next, n')
  {
    hide AdvanceAll, Carry, Numbered;
    AdvanceConcat(msgs, begin, sent, chunks);
    CarryConcat(Flat(packets), records, msgs, begin, sent, chunks);
    NumberedConcat(n0, Flat(packets), records);
    assert (packets + [records])[..|packets|] == packets;
  }

  lemma ConsecutiveFacts(msgs: seq<Outgoing>, begin: Cursor, n0: Numbers, records: seq<SealedRecord>,
                         chunks: seq<Chunk>, cur: Cursor, n: Numbers)
    requires Consecutive(msgs, begin, n0, records, chunks, cur, n)
    ensures AdvanceAll(msgs, begin, chunks) == Some(cur) && Carry(records, msgs, begin, chunks)
    ensures n == Numbered(n0, records)
  {
  }

  // One more record, of the chunk that comes next.
  lemma ConsecutiveMore(msgs: seq<Outgoing>, begin: Cursor, n0: Numbers, records: seq<SealedRecord>,
                        chunks: seq<Chunk>, cur: Cursor, n: Numbers, r: SealedRecord, chunk: Chunk)
    requires Consecutive(msgs, begin, n0, records, chunks, cur, n)
    requires cur.written < |msgs| && Advance(msgs, cur, chunk).Some? && Protects(r, chunk, msgs[cur.written].epoch)
    ensures Consecutive(msgs, begin, n0, records + [r], chunks + [chunk], Advance(msgs, cur, chunk).value,
                        n.Bump(if r.number.epoch == n0.epoch then CurrentEpoch else PreviousEpoch))
    ensures WireLen(records + [r]) == WireLen(records) + r.wireLen
  {
    hide Advance, Protects;
    AdvanceConcat(msgs, begin, chunks, [chunk]);
    OneCarried(msgs, cur, r, chunk);
    CarryConcat(records, [r], msgs, begin, chunks, [chunk]);
    NumberedOne(n0, records, r);
    assert (records + [r])[..|records|] == records;
  }

  lemma OneCarried(msgs: seq<Outgoing>, cur: Cursor, r: SealedRecord, chunk: Chunk)
    requires cur.written < |msgs| && Advance(msgs, cur, chunk).Some? && Protects(r, chunk, msgs[cur.written].epoch)
    ensures Carry([r], msgs, cur, [chunk])
    ensures AdvanceAll(msgs, cur, [chunk]) == Advance(msgs, cur, chunk)
  {
    hide Advance, Protects;
    assert [r][1..] == [] && [chunk][1..] == [];
  }

  // A record that is made uses up a number of its epoch.
  lemma MadeBumps(c: Ciphers, n: Numbers, m: Outgoing, offset: nat, maxOut: nat)
    requires SealNext(c, n, m, offset, maxOut).Made?
    ensures var a := SealNext(c, n, m, offset, maxOut);
            a.after == n.Bump(if a.record.number.epoch == n.epoch then CurrentEpoch else PreviousEpoch)
  {
    hide Piece, PlainOf, NoRoom, Outgoing.Whole;
  }

  // What one attempt does to a packet that is being filled.
  lemma FillingStep(c: Ciphers, msgs: seq<Outgoing>, begin: Cursor, n0: Numbers, maxOut: nat,
                    records: seq<SealedRecord>, chunks: seq<Chunk>, cur: Cursor, n: Numbers, room: nat)
    requires Filling(c, msgs, begin, n0, maxOut, records, chunks, cur, n, room) && cur.written < |msgs|
    ensures var a := SealNext(c, n, msgs[cur.written], cur.offset, room);
            var f := PacketOf(c, msgs, begin, n0, maxOut);
            && (a.Refused? ==> f == Filled(records, chunks, cur, a.after, true))
            && (a.Stuck? ==> f == Filled(records, chunks, cur, n, false))
    ensures var a := SealNext(c, n, msgs[cur.written], cur.offset, room);
            a.Made? && Advance(msgs, cur, a.chunk).Some? && Protects(a.record, a.chunk, msgs[cur.written].epoch)
            && a.record.wireLen > 0 ==>
              var next := Advance(msgs, cur, a.chunk).value;
              var rs, cs := records + [a.record], chunks + [a.chunk];
              && Consecutive(msgs, begin, n0, rs, cs, next, a.after)
              && WireLen(rs) == WireLen(records) + a.record.wireLen
              && if next.written == cur.written then PacketOf(c, msgs, begin, n0, maxOut) ==
                Filled(rs, cs, next, a.after, false)
                 else Filling(c, msgs, begin, n0, maxOut, rs, cs, next, a.after, room - a.record.wireLen)
  {
    hide SealNext, Advance, Protects, Consecutive, WireLen;
    var a := SealNext(c, n, msgs[cur.written], cur.offset, room);
    assert records + [] == records && chunks + [] == chunks;
    if a.Made? && Advance(msgs, cur, a.chunk).Some? && Protects(a.record, a.chunk, msgs[cur.written].epoch) {
      MadeBumps(c, n, msgs[cur.written], cur.offset, room);
      SameEpoch(msgs, begin, n0, records, chunks, cur, n);
      ConsecutiveMore(msgs, begin, n0, records, chunks, cur, n, a.record, a.chunk);
      var next := Advance(msgs, cur, a.chunk).value;
      if next.written != cur.written {
        var g := PacketOf(c, msgs, next, a.after, room - a.record.wireLen);
        assert records + ([a.record] + g.records) == records + [a.record] + g.records;
        assert chunks + ([a.chunk] + g.chunks) == chunks + [a.chunk] + g.chunks;
      }
    }
  }

  lemma SameEpoch(msgs: seq<Outgoing>, begin: Cursor, n0: Numbers, records: seq<SealedRecord>,
                  chunks: seq<Chunk>, cur: Cursor, n: Numbers)
    requires Consecutive(msgs, begin, n0, records, chunks, cur, n)
    ensures n.epoch == n0.epoch
  {
    hide AdvanceAll, Carry;
  }

  lemma FillingEnd(c: Ciphers, msgs: seq<Outgoing>, begin: Cursor, n0: Numbers, maxOut: nat,
                   records: seq<SealedRecord>, chunks: seq<Chunk>, cur: Cursor, n: Numbers, room: int)
    requires Filling(c, msgs, begin, n0, maxOut, records, chunks, cur, n, room)
    ensures Consecutive(msgs, begin, n0, records, chunks, cur, n) && WireLen(records) + room == maxOut
    ensures chunks == [] <==> WireLen(records) == 0
    ensures cur.written >= |msgs| ==> PacketOf(c, msgs, begin, n0, maxOut) == Filled(records, chunks, cur, n, false)
  {
    hide Consecutive;
    assert records + [] == records && chunks + [] == chunks;
  }

  // ----- Why a packet fails --------------------------------------------------------------

  // A record is refused exactly when the message cannot be sent in this epoch
  // or, although there is room, the cipher fails, the counter wraps or the
  // ciphertext is too long for the record header.
  lemma RefusedExactly(c: Ciphers, n: Numbers, m: Outgoing, offset: nat, maxOut: nat)
    requires c.Valid()
    ensures SealNext(c, n, m, offset, maxOut).Refused? <==>
            || !Sendable(m, offset, n.epoch)
            || (!NoRoom(c, n.epoch, m, maxOut)
                && var use, p := EpochFor(m, n.epoch).value, Piece(c, n.epoch, m, offset, maxOut);
                   var made := c.For(use).seal(n.Target(use), KindOf(p), PlainOf(p), maxOut - RECORD_HEADER);
                   made.None? || n.Target(use).seqNum == SEQUENCE_LIMIT - 1 || made.value >= 0x1_0000)
  {
    hide Piece, PlainOf, Outgoing.Whole, Aead.Valid;
  }

  lemma OneOn(msgs: seq<Outgoing>, cur: Cursor, chunk: Chunk)
    requires Advance(msgs, cur, chunk).Some?
    ensures cur.written < |msgs|
    ensures var next := Advance(msgs, cur, chunk).value;
            next.written == cur.written || next.written == cur.written + 1
  {
    hide Outgoing.Whole;
  }

  lemma BumpUp(n: Numbers, use: UseEpoch)
    requires n.seqNum + 1 < SEQUENCE_LIMIT && n.lastSeqNum + 1 < SEQUENCE_LIMIT
    ensures n.Bump(use).epoch == n.epoch
    ensures n.Bump(use).seqNum <= n.seqNum + 1 && n.Bump(use).lastSeqNum <= n.lastSeqNum + 1
  {
  }

  lemma {:induction false} WireLenConcat(a: seq<SealedRecord>, b: seq<SealedRecord>)
    ensures WireLen(a + b) == WireLen(a) + WireLen(b)
    decreases |b|
  {
    if b == [] {
      assert a + b == a;
    } else {
      var front := b[..|b| - 1];
      WireLenConcat(a, front);
      assert (a + b)[..|a + b| - 1] == a + front;
    }
  }

  // A packet fails only where a record is refused: of the message at the cursor
  // behind the records made, with the numbers behind them and in the room they leave.
  lemma {:induction false} WhyFailed(c: Ciphers, msgs: seq<Outgoing>, cur: Cursor, n: Numbers, room: int)
    requires PacketOf(c, msgs, cur, n, room).failed
    ensures var f := PacketOf(c, msgs, cur, n, room);
            && f.cur.written < |msgs| && WireLen(f.records) <= room
            && SealNext(c, Numbered(n, f.records), msgs[f.cur.written], f.cur.offset,
              room - WireLen(f.records)).Refused?
    decreases |msgs| - cur.written
  {
    hide SealNext, Advance, Numbered, WireLen;
    var a := SealNext(c, n, msgs[cur.written], cur.offset, room);
    if a.Made? {
      var next, left := Advance(msgs, cur, a.chunk).value, room - a.record.wireLen;
      var f := PacketOf(c, msgs, next, a.after, left);
      OneOn(msgs, cur, a.chunk);
      WhyFailed(c, msgs, next, a.after, left);
      MadeBumps(c, n, msgs[cur.written], cur.offset, room);
      OneBefore(n, a.record, f.records);
    } else {
      NothingBefore(n);
    }
  }

  lemma NothingBefore(n: Numbers)
    ensures Numbered(n, []) == n && WireLen([]) == 0
  {
  }

  lemma OneBefore(n: Numbers, r: SealedRecord, rs: seq<SealedRecord>)
    ensures Numbered(n, [r] + rs) ==
            Numbered(n.Bump(if r.number.epoch == n.epoch then CurrentEpoch else PreviousEpoch), rs)
    ensures WireLen([r] + rs) == r.wireLen + WireLen(rs)
  {
    NumberedOne(n, [], r);
    assert [] + [r] == [r] && [r][..0] == [];
    NumberedConcat(n, [r], rs);
    WireLenConcat([r], rs);
  }

  // The cipher of every epoch seals whatever there is room for.
  ghost predicate Working(c: Ciphers) {
    forall use: UseEpoch, n: RecordNumber, kind: nat, plain: seq<byte>, maxOut: nat ::
      |plain| + c.For(use).maxOverhead <= maxOut ==>
        c.For(use).seal(n, kind, plain, maxOut).Some? && c.For(use).seal(n, kind, plain, maxOut).value < 0x1_0000
  }

  // With working ciphers, messages of a current epoch and some numbers left,
  // no packet fails.
  lemma {:induction false} NeverFails(c: Ciphers, msgs: seq<Outgoing>, cur: Cursor, n: Numbers, room: int)
    requires c.Valid() && Working(c) && CursorIn(msgs, cur)
    requires forall m | m in msgs :: Sendable(m, 0, n.epoch)
    requires n.seqNum + |msgs| - cur.written < SEQUENCE_LIMIT && n.lastSeqNum + |msgs| - cur.written < SEQUENCE_LIMIT
    ensures !PacketOf(c, msgs, cur, n, room).failed
    decreases |msgs| - cur.written
  {
    if cur.written < |msgs| && room >= 0 {
      hide SealNext, Advance, Working, Sendable, Aead.Valid, Outgoing.Body, Numbers.Bump, CursorIn, Remaining;
      var m := msgs[cur.written];
      var a := SealNext(c, n, m, cur.offset, room);
      SealWorks(c, msgs, cur, n, room);
      if a.Made? {
        MadeBumps(c, n, m, cur.offset, room);
        BumpUp(n, if a.record.number.epoch == n.epoch then CurrentEpoch else PreviousEpoch);
        var next := Advance(msgs, cur, a.chunk);
        if next.Some? && next.value.written != cur.written {
          AdvanceTiles(msgs, cur, a.chunk);
          OneOn(msgs, cur, a.chunk);
          NeverFails(c, msgs, next.value, a.after, room - a.record.wireLen);
        }
      }
    }
  }

  lemma SealWorks(c: Ciphers, msgs: seq<Outgoing>, cur: Cursor, n: Numbers, room: nat)
    requires c.Valid() && Working(c) && CursorIn(msgs, cur) && cur.written < |msgs|
    requires Sendable(msgs[cur.written], 0, n.epoch)
    requires n.seqNum + 1 < SEQUENCE_LIMIT && n.lastSeqNum + 1 < SEQUENCE_LIMIT
    ensures !SealNext(c, n, msgs[cur.written], cur.offset, room).Refused?
  {
    hide Parse, Remaining, FlightBytes, HeaderBytes, Aead.Valid;
    RefusedExactly(c, n, msgs[cur.written], cur.offset, room);
  }
}
