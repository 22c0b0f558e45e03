/**
 Sending a flight of DTLS handshake messages: messages are cut into fragments,
 fragments are packed into packets of at most the MTU, and a failed transport
 write is taken back so that it can be retried.
 */
module DtlsSender {
  import opened Wrappers
  import opened DtlsFragments
  import opened DtlsFlight
  import opened DtlsPackets
  import opened DtlsWriter

  const MAX_FLIGHT := 7
  const MIN_MTU := 256 - 28
  const DEFAULT_MTU := 1500 - 28

  datatype SealResult = SealError | NoProgress | Partial | Success

  // The records of a packet, one after another.
  datatype PacketResult = Packet(records: seq<SealedRecord>) | PacketError | MtuTooSmall

  datatype SendResult = Sent | Blocked | FlushBlocked | SealFailed | TooSmall

  class Sender {
    const writer: Writer
    var messages: seq<Outgoing>
    var written: nat
    var offset: nat
    var complete: bool
    var writeSeq: nat
    var mtu: nat
    // The packets the transport has taken, and how often it refused to write.
    var transport: seq<seq<SealedRecord>>
    var refusals: nat
    // The chunks the transport has accepted since the flight began or was last
    // rewound.
    ghost var accepted: seq<Chunk>
    // Set when sealing failed half way through a packet, which leaves the
    // cursor beyond what was accepted until the flight is rewound.
    ghost var astray: bool

    ghost function Cur(): Cursor
      reads this
    {
      Cursor(written, offset)
    }

    ghost predicate Valid()
      reads this, writer
      ensures Valid() ==> writer.Valid() && CursorIn(messages, Cur())
    {
      && writer.Valid()
      && |messages| <= MAX_FLIGHT
      && CursorIn(messages, Cur())
      && (!astray ==> AdvanceAll(messages, START, accepted) == Some(Cur()))
    }

    constructor (initial: Aead, mtu: nat)
      requires initial.Valid()
      ensures Valid() && fresh(writer) && messages == [] && !astray
    {
      writer := new Writer(initial);
      messages, written, offset := [], 0, 0;
      complete, writeSeq, this.mtu := false, 0, mtu;
      transport, refusals := [], 0;
      accepted, astray := [], false;
    }

    /** `dtls_clear_outgoing_messages`. */
    method ClearOutgoing()
      requires Valid()
      modifies this
      ensures Valid() && messages == [] && accepted == [] && !astray && !complete
      ensures writeSeq == old(writeSeq) && mtu == old(mtu)
    {
      messages, written, offset := [], 0, 0;
      complete, accepted, astray := false, [], false;
    }

    /** `add_outgoing`: queues a message, starting a new flight after a flush. */
    method AddOutgoing(isCcs: bool, data: seq<byte>) returns (ok: bool)
      requires Valid()
      modifies this
      ensures Valid() && !complete
      ensures ok <==> old(complete) || |old(messages)| < MAX_FLIGHT
      ensures var before := if old(complete) then [] else old(messages);
              messages == if ok then before + [Outgoing(data, writer.epoch, isCcs)] else before
      ensures writeSeq == old(writeSeq) + if ok && !isCcs then 1 else 0
      ensures old(complete) ==> accepted == [] && !astray
      ensures !old(complete) ==> accepted == old(accepted) && astray == old(astray)
    {
      if complete {
        ClearOutgoing();
      }
      if |messages| >= MAX_FLIGHT {
        return false;
      }
      if !isCcs {
        writeSeq := writeSeq + 1;
      }
      var m := Outgoing(data, writer.epoch, isCcs);
      if !astray {
        AdvanceGrows(messages, m, START, accepted);
      }
      messages := messages + [m];
      return true;
    }

    /** `seal_next_message`: seals as much of the next message as fits. */
    method SealNextMessage(maxOut: nat) returns (r: SealResult, record: Option<SealedRecord>, ghost chunk: Chunk)
      requires writer.Valid() && CursorIn(messages, Cur()) && written < |messages|
      modifies `offset, writer`writeSequence, writer`lastWriteSequence
      ensures writer.Valid()
      ensures r.SealError? || r.NoProgress? ==> offset == old(offset)
      ensures r.Success? ==> offset == 0 && Advance(messages, old(Cur()), chunk) == Some(Cursor(written + 1, 0))
      ensures r.Partial? ==> offset > old(offset) && Advance(messages, old(Cur()), chunk) == Some(Cur())
      ensures record.Some? <==> r.Success? || r.Partial?
      ensures record.Some? ==> 0 < record.value.wireLen <= maxOut
      ensures record.Some? ==> Protects(record.value, chunk, messages[written].epoch)
      ensures r.NoProgress? ==> NoRoom(writer.Keys(), writer.epoch, messages[written], maxOut)
      ensures r.Partial? ==> |chunk.Bytes()| == Fills(writer.Keys(), writer.epoch, messages[written], maxOut)
      ensures match SealNext(writer.Keys(), old(writer.View()), messages[written], old(offset), maxOut)
              case Refused(after) => r.SealError? && writer.View() == after
              case Stuck => r.NoProgress? && writer.View() == old(writer.View())
              case Made(made, c, after) => record == Some(made) && chunk == c && writer.View() == after
    {
      hide Parse, Advance, Attempt, Numbers.Emits, Numbers.Step, Aead.Valid, Piece, HeaderBytes;
      var m := messages[written];
      var use := EpochFor(m, writer.epoch);
      chunk, record := CcsChunk, None;
      if use.None? {
        return SealError, record, chunk;
      }
      var overhead, prefix := writer.Keys().MaxSealOverhead(use.value), writer.Keys().SealPrefixLen(use.value);
      if m.isCcs {
        if maxOut < 1 + overhead {
          return NoProgress, record, chunk;
        }
        CcsIs(maxOut);
        record := writer.SealRecord(CHANGE_CIPHER_SPEC, [1], maxOut, use.value);
        if record.None? {
          return SealError, record, chunk;
        }
        assert offset == 0;
        CcsAdvances();
        return Success, record, chunk;
      }
      var whole := m.Whole();
      if whole.None? {
        return SealError, record, chunk;
      }
      var body := whole.value.body[offset..];
      if maxOut < HEADER_LENGTH + 1 + overhead || maxOut < prefix {
        return NoProgress, record, chunk;
      }
      var todo := |body|;
      PrefixInOverhead(writer.Keys(), use.value);
      if todo > maxOut - HEADER_LENGTH - overhead {
        todo := maxOut - HEADER_LENGTH - overhead;
      }
      var fragment := Fragment(whole.value.hdr.(fragOff := offset, fragLen := todo), body[..todo]);
      chunk := FragmentChunk(fragment);
      FragmentAdvances(fragment);
      PieceIs(fragment, maxOut);
      // The fragment is built in place, after the room for the record prefix.
      assert HEADER_LENGTH + todo <= maxOut - prefix;
      record := writer.SealRecord(HANDSHAKE, Serialize(fragment), maxOut, use.value);
      if record.None? {
        return SealError, record, chunk;
      }
      if todo == |body| {
        offset := 0;
        return Success, record, chunk;
      }
      offset := offset + todo;
      return Partial, record, chunk;
    }

    /** `seal_next_packet`: fills one packet with the messages that come next. */
    method SealNextPacket(maxOut: nat) returns (r: PacketResult, ghost chunks: seq<Chunk>)
      requires Valid() && written < |messages|
      modifies `written, `offset, writer`writeSequence, writer`lastWriteSequence
      ensures writer.Valid() && CursorIn(messages, Cur())
      ensures AdvanceAll(messages, old(Cur()), chunks) == Some(Cur())
      ensures r.Packet? ==> chunks != [] && 0 < WireLen(r.records) <= maxOut
      ensures r.Packet? ==>
                Consecutive(messages, old(Cur()), old(writer.View()), r.records, chunks, Cur(), writer.View())
      ensures r.Packet? && written < |messages| && offset == 0 ==>
                NoRoom(writer.Keys(), writer.epoch, messages[written], maxOut - WireLen(r.records))
      ensures r.MtuTooSmall? ==> chunks == [] && Cur() == old(Cur())
      ensures r.MtuTooSmall? ==> NoRoom(writer.Keys(), writer.epoch, messages[written], maxOut)
      ensures var f := PacketOf(writer.Keys(), messages, old(Cur()), old(writer.View()), maxOut);
              && (r.PacketError? <==> f.failed)
              && (r.Packet? ==> r.records == f.records)
              && chunks == f.chunks && Cur() == f.cur && writer.View() == f.after
    {
      hide Advance, Remaining, NoRoom, Fills, Protects, EpochFor, SealNext, PacketOf, Filling, Carry, WireLen,
        Numbered, Outgoing.Body;
      ghost var c, begin, n0 := writer.Keys(), Cur(), writer.View();
      var madeProgress, room: nat := false, maxOut;
      var records: seq<SealedRecord> := [];
      chunks := [];
      FillingStart(c, messages, begin, n0, maxOut);
      while written < |messages|
        invariant writer.Valid() && CursorIn(messages, Cur()) && writer.Keys() == c
        invariant madeProgress <==> chunks != []
        invariant !madeProgress ==> Cur() == begin
        invariant Filling(c, messages, begin, n0, maxOut, records, chunks, Cur(), writer.View(), room)
        decreases |messages| - written
      {
        ghost var cur := Cur();
        FillingEnd(c, messages, begin, n0, maxOut, records, chunks, cur, writer.View(), room);
        FillingStep(c, messages, begin, n0, maxOut, records, chunks, cur, writer.View(), room);
        var result, record, chunk := SealNextMessage(room);
        if result.SealError? {
          return PacketError, chunks;
        }
        if result.NoProgress? {
          if !madeProgress {
            return MtuTooSmall, chunks;
          }
          return Packet(records), chunks;
        }
        AdvanceTiles(messages, cur, chunk);
        chunks, records := chunks + [chunk], records + [record.value];
        room, madeProgress := room - record.value.wireLen, true;
        if result.Partial? {
          return Packet(records), chunks;
        }
        written := written + 1;
      }
      FillingEnd(c, messages, begin, n0, maxOut, records, chunks, Cur(), writer.View(), room);
      return Packet(records), chunks;
    }

    // How much of the flight is left: messages, then bytes of the current one.
    ghost function BytesLeft(): nat
      requires CursorIn(messages, Cur())
      reads this
    {
      if written == |messages| then 0 else |messages[written].Body()| - offset
    }

    /** `dtls1_update_mtu`, for whatever MTU the transport reports. */
    method UpdateMtu(mayQuery: bool)
      modifies `mtu
      ensures mtu == old(mtu) || (mayQuery && old(mtu) < MIN_MTU <= mtu)
      ensures mayQuery ==> mtu >= MIN_MTU
    {
      if mtu < MIN_MTU && mayQuery {
        var reported: int := *;
        if 0 <= reported <= 0x4000_0000 && reported >= MIN_MTU {
          mtu := reported;
        } else {
          mtu := DEFAULT_MTU;
        }
      }
    }

    /** Some transport: it takes a packet, or refuses to. */
    method BioWrite(packet: seq<SealedRecord>) returns (ok: bool)
      modifies `transport, `refusals
      ensures transport == if ok then old(transport) + [packet] else old(transport)
      ensures refusals == old(refusals) + if ok then 0 else 1
    {
      ok := *;
      if ok {
        transport := transport + [packet];
      } else {
        refusals := refusals + 1;
      }
    }

    method BioFlush() returns (ok: bool)
      modifies `refusals
      ensures refusals == old(refusals) + if ok then 0 else 1
    {
      ok := *;
      if !ok {
        refusals := refusals + 1;
      }
    }

    /** One turn of the loop of `send_flight`: a packet that the transport refuses is taken back. */
    method SendNextPacket() returns (r: SendResult, ghost packet: seq<SealedRecord>, ghost chunks: seq<Chunk>)
      requires Valid() && written < |messages|
      modifies `written, `offset, `transport, `refusals, `accepted, `astray, writer`writeSequence,
        writer`lastWriteSequence
      ensures Valid() && !r.FlushBlocked?
      ensures r.Sent? ==>
                && Consecutive(messages, old(Cur()), old(writer.View()), packet, chunks, Cur(), writer.View())
                && 0 < WireLen(packet) <= mtu && transport == old(transport) + [packet]
                && accepted == old(accepted) + chunks
                && (written > old(written) || (written == old(written) && offset > old(offset)))
      ensures !r.Sent? ==> transport == old(transport) && accepted == old(accepted)
      ensures r.Blocked? || r.TooSmall? ==> Cur() == old(Cur())
      ensures refusals == old(refusals) + if r.Blocked? then 1 else 0
      ensures r.TooSmall? ==> NoRoom(writer.Keys(), writer.epoch, messages[written], mtu)
      ensures r.SealFailed? <==>
                PacketOf(writer.Keys(), messages, old(Cur()), old(writer.View()), mtu).failed
      ensures !r.SealFailed? ==> astray == old(astray)
    {
      hide AdvanceAll, Outgoing.Body, NoRoom, EpochFor, PacketOf, Carry, WireLen, Numbered;
      var oldWritten, oldOffset := written, offset;
      ghost var before := Cur();
      packet := [];
      var sealed;
      sealed, chunks := SealNextPacket(mtu);
      if sealed.MtuTooSmall? {
        return TooSmall, packet, chunks;
      }
      if sealed.PacketError? {
        astray := true;
        return SealFailed, packet, chunks;
      }
      packet := sealed.records;
      var ok := BioWrite(sealed.records);
      if !ok {
        written, offset := oldWritten, oldOffset;
        return Blocked, packet, chunks;
      }
      if !astray {
        AdvanceConcat(messages, START, accepted, chunks);
      }
      ForwardOnly(messages, before, chunks);
      accepted := accepted + chunks;
      return Sent, packet, chunks;
    }

    // Sealing failed behind the given packets, of what then came next.
    ghost predicate FailsBehind(cur: Cursor, n: Numbers, sent: seq<Chunk>, packets: seq<seq<SealedRecord>>)
      requires AdvanceAll(messages, cur, sent).Some?
      reads `messages, `mtu, writer`aead, writer`lastAead
    {
      PacketOf(writer.Keys(), messages, AdvanceAll(messages, cur, sent).value, Numbered(n, Flat(packets)), mtu).failed
    }

    /**
     `send_flight`: sends the rest of the flight.  The accepted chunks continue
     the flight where it was left, packets fit the MTU, and a packet the
     transport refuses is taken back whole.
     */
    method SendFlight(mayQuery: bool)
      returns (r: SendResult, ghost sent: seq<Chunk>, ghost packets: seq<seq<SealedRecord>>)
      requires Valid()
      modifies `written, `offset, `mtu, `transport, `refusals, `accepted, `astray,
        writer`writeSequence, writer`lastWriteSequence
      ensures Valid()
      ensures AdvanceAll(messages, old(Cur()), sent).Some? && accepted == old(accepted) + sent
      ensures Carry(Flat(packets), messages, old(Cur()), sent) && transport == old(transport) + packets
      ensures forall p | p in packets :: 0 < WireLen(p) <= mtu
      ensures r.Sent? || r.FlushBlocked? ==> written == |messages|
      ensures refusals == old(refusals) + if r.Blocked? || r.FlushBlocked? then 1 else 0
      ensures r.TooSmall? ==>
                written < |messages| && NoRoom(writer.Keys(), writer.epoch, messages[written], mtu)
      ensures r.SealFailed? ==> FailsBehind(old(Cur()), old(writer.View()), sent, packets)
      ensures !r.SealFailed? ==> Some(Cur()) == AdvanceAll(messages, old(Cur()), sent) && astray == old(astray)
    {
      hide AdvanceAll, Outgoing.Body, NoRoom, EpochFor, PacketOf, Consecutive, Carry, Flat, WireLen, Numbered;
      ghost var begin, n0 := Cur(), writer.View();
      UpdateMtu(mayQuery);
      sent, packets := [], [];
      NothingYet(messages, begin, n0);
      while written < |messages|
        invariant Valid() && astray == old(astray) && refusals == old(refusals)
        invariant accepted == old(accepted) + sent && transport == old(transport) + packets
        invariant Consecutive(messages, begin, n0, Flat(packets), sent, Cur(), writer.View())
        invariant forall p | p in packets :: 0 < WireLen(p) <= mtu
        decreases |messages| - written, BytesLeft()
      {
        ghost var before, n := Cur(), writer.View();
        ConsecutiveFacts(messages, begin, n0, Flat(packets), sent, before, n);
        ghost var packet, chunks;
        r, packet, chunks := SendNextPacket();
        if !r.Sent? {
          return;
        }
        PacketTaken(messages, begin, n0, packets, sent, before, n, packet, chunks, Cur(), writer.View());
        sent, packets := sent + chunks, packets + [packet];
      }
      ConsecutiveFacts(messages, begin, n0, Flat(packets), sent, Cur(), writer.View());
      var flushed := BioFlush();
      r := if flushed then Sent else FlushBlocked;
    }

    /** `dtls1_flush_flight`. */
    method FlushFlight(mayQuery: bool)
      returns (r: SendResult, ghost sent: seq<Chunk>, ghost packets: seq<seq<SealedRecord>>)
      requires Valid()
      modifies this, writer`writeSequence, writer`lastWriteSequence
      ensures Valid() && complete && messages == old(messages)
      ensures AdvanceAll(messages, old(Cur()), sent).Some? && accepted == old(accepted) + sent
      ensures Carry(Flat(packets), messages, old(Cur()), sent) && transport == old(transport) + packets
      ensures forall p | p in packets :: 0 < WireLen(p) <= mtu
      ensures r.Sent? ==> written == |messages|
      ensures refusals == old(refusals) + if r.Blocked? || r.FlushBlocked? then 1 else 0
      ensures r.TooSmall? ==>
                written < |messages| && NoRoom(writer.Keys(), writer.epoch, messages[written], mtu)
      ensures r.SealFailed? ==> FailsBehind(old(Cur()), old(writer.View()), sent, packets)
      ensures !r.SealFailed? ==> Some(Cur()) == AdvanceAll(messages, old(Cur()), sent) && astray == old(astray)
    {
      complete := true;
      r, sent, packets := SendFlight(mayQuery);
    }

    /** `dtls1_retransmit_outgoing_messages`: the whole flight again, from the start. */
    method Retransmit(mayQuery: bool)
      returns (r: SendResult, ghost sent: seq<Chunk>, ghost packets: seq<seq<SealedRecord>>)
      requires Valid()
      modifies this, writer`writeSequence, writer`lastWriteSequence
      ensures Valid() && messages == old(messages) && accepted == sent
      ensures AdvanceAll(messages, START, sent).Some?
      ensures Carry(Flat(packets), messages, START, sent) && transport == old(transport) + packets
      ensures forall p | p in packets :: 0 < WireLen(p) <= mtu
      ensures refusals == old(refusals) + if r.Blocked? || r.FlushBlocked? then 1 else 0
      ensures r.TooSmall? ==>
                written < |messages| && NoRoom(writer.Keys(), writer.epoch, messages[written], mtu)
      ensures r.Sent? ==> AdvanceAll(messages, START, sent) == Some(Cursor(|messages|, 0))
      ensures r.SealFailed? ==> FailsBehind(START, old(writer.View()), sent, packets)
      ensures !r.SealFailed? ==> !astray
    {
      written, offset := 0, 0;
      accepted, astray := [], false;
      r, sent, packets := SendFlight(mayQuery);
      assert [] + sent == sent;
    }

    // The piece that goes into the room there is.
    lemma PieceIs(f: Fragment, maxOut: nat)
      requires written < |messages| && !messages[written].isCcs && Sendable(messages[written], offset, writer.epoch)
      requires !NoRoom(writer.Keys(), writer.epoch, messages[written], maxOut)
      requires var whole, fills := messages[written].Whole().value, Fills(writer.Keys(), writer.epoch,
        messages[written], maxOut);
               && |f.body| == (if |whole.body| - offset > fills then fills else |whole.body| - offset)
               && f.hdr == whole.hdr.(fragOff := offset, fragLen := |f.body|)
               && f.body == whole.body[offset..][..|f.body|]
      ensures Piece(writer.Keys(), writer.epoch, messages[written], offset, maxOut) == FragmentChunk(f)
    {
      hide Parse, NoRoom;
      assert f.body == messages[written].Whole().value.body[offset..offset + |f.body|];
    }

    lemma CcsIs(maxOut: nat)
      requires written < |messages| && messages[written].isCcs && Sendable(messages[written], offset, writer.epoch)
      requires !NoRoom(writer.Keys(), writer.epoch, messages[written], maxOut)
      ensures Piece(writer.Keys(), writer.epoch, messages[written], offset, maxOut) == CcsChunk
    {
    }

    lemma CcsAdvances()
      requires written < |messages| && messages[written].isCcs && offset == 0
      ensures Advance(messages, Cur(), CcsChunk) == Some(Cursor(written + 1, 0))
    {
    }

    lemma FragmentAdvances(f: Fragment)
      requires written < |messages| && !messages[written].isCcs && messages[written].Whole().Some?
      requires var body := messages[written].Whole().value.body;
               && offset + |f.body| <= |body|
               && f.hdr == messages[written].Whole().value.hdr.(fragOff := offset, fragLen := |f.body|)
               && f.body == body[offset..][..|f.body|]
               && (f.body != [] || body == [])
      ensures f.WireValid()
      ensures Advance(messages, Cur(), FragmentChunk(f)) ==
              Some(if offset + |f.body| == |messages[written].Whole().value.body| then Cursor(written + 1, 0)
                   else Cursor(written, offset + |f.body|))
    {
      hide Parse;
      var body := messages[written].Whole().value.body;
      assert f.body == body[offset..offset + |f.body|];
    }
  }

  // Sending moves the cursor forward, and strictly so when anything is sent.
  lemma {:induction false} ForwardOnly(msgs: seq<Outgoing>, cur: Cursor, cs: seq<Chunk>)
    requires CursorIn(msgs, cur) && AdvanceAll(msgs, cur, cs).Some?
    ensures var end := AdvanceAll(msgs, cur, cs).value;
            && CursorIn(msgs, end)
            && (end.written > cur.written || (end.written == cur.written && end.offset >= cur.offset))
            && (cs != [] ==> end != cur)
    decreases |cs|
  {
    if cs != [] {
      hide Outgoing.Whole;
      var next := Advance(msgs, cur, cs[0]).value;
      AdvanceTiles(msgs, cur, cs[0]);
      ForwardOnly(msgs, next, cs[1..]);
    }
  }
}
