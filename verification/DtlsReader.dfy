/**
 Receiving DTLS handshake messages: out-of-order, overlapping and duplicated
 fragments are reassembled in a ring of seven slots and handed on in sequence.
 `ReaderState` is the specification, keyed by message sequence number;
 `Reader` is the ring of heap-allocated, partially received messages.
 */
module DtlsReader {
  import opened Wrappers
  import opened DtlsFragments
  import opened ReassemblyMask

  const MAX_FLIGHT := 7

  // A partially received message: the bytes that have arrived, by offset.
  datatype Partial = Partial(typ: byte, msgLen: nat, bytes: map<nat, byte>) {
    ghost predicate Complete() {
      Covers(bytes.Keys, msgLen)
    }

    ghost function Body(): seq<byte>
      requires Complete()
    {
      seq(msgLen, k requires 0 <= k < msgLen => bytes[k])
    }

    ghost function Insert(off: nat, body: seq<byte>): (p: Partial)
      ensures p.typ == typ && p.msgLen == msgLen
      ensures p.bytes.Keys == bytes.Keys + Range(off, off + |body|)
      ensures forall k | k in p.bytes ::
                p.bytes[k] == if off <= k < off + |body| then body[k - off] else bytes[k]
    {
      var placed := Range(off, off + |body|);
      this.(bytes := map k | k in bytes.Keys + placed :: if k in placed then body[k - off] else bytes[k])
    }
  }

  // A message as one unfragmented handshake message.
  function WholeMessage(seqNum: nat, m: Message): seq<byte>
    requires seqNum < 0x1_0000 && |m.body| < 0x100_0000
  {
    Serialize(Fragment(Header(m.typ, |m.body|, seqNum, 0, |m.body|), m.body))
  }

  datatype ReaderState = ReaderState(epoch: nat, limit: nat, readSeq: nat, slots: map<nat, Partial>) {

    // What is buffered for the message of header `h`, before its fragment.
    ghost function Buffered(h: Header): Partial {
      if h.seqNum in slots then slots[h.seqNum] else Partial(h.typ, h.msgLen, map[])
    }

    // One fragment; `None` when the read fails.
    ghost function Accept(f: Fragment): Option<ReaderState> {
      var h := f.hdr;
      if h.fragOff + h.fragLen > h.msgLen || h.msgLen > limit then None
      else if epoch == 1 && h.seqNum != readSeq then None
      else if h.seqNum < readSeq || h.seqNum > readSeq + MAX_FLIGHT then Some(this)
      else if h.seqNum - readSeq >= MAX_FLIGHT then None
      else
        var p := Buffered(h);
        if p.typ != h.typ || p.msgLen != h.msgLen then None
        else if p.Complete() then Some(this.(slots := slots[h.seqNum := p]))
        else Some(this.(slots := slots[h.seqNum := p.Insert(h.fragOff, f.body)]))
    }

    // All the fragments of one handshake record.
    ghost function ReadRecord(record: seq<byte>): Option<ReaderState>
      decreases |record|
    {
      if record == [] then Some(this)
      else
        match Parse(record)
        case None => None
        case Some((f, rest)) =>
          match Accept(f)
          case None => None
          case Some(r) => r.ReadRecord(rest)
    }

    ghost predicate HasMessage() {
      readSeq in slots && slots[readSeq].Complete()
    }

    ghost function Current(): Message
      requires HasMessage()
    {
      Message(slots[readSeq].typ, slots[readSeq].Body())
    }

    ghost function Next(): ReaderState
      requires HasMessage()
    {
      this.(readSeq := readSeq + 1, slots := slots - {readSeq})
    }
  }

  /** A message being reassembled (`hm_fragment`). */
  class HmFragment {
    const typ: byte
    const seqNum: nat
    const msgLen: nat
    const data: array<byte>
    var reassembly: array?<bv8>
    ghost var bytes: map<nat, byte>
    ghost const repr: set<object>

    ghost predicate Valid()
      reads this, repr
    {
      && this in repr && data in repr
      && (reassembly != null ==> reassembly in repr && reassembly as object != data)
      && msgLen < 0x100_0000 && seqNum < 0x1_0000
      && data.Length == HEADER_LENGTH + msgLen
      && data[..HEADER_LENGTH] == HeaderBytes(Header(typ, msgLen, seqNum, 0, msgLen))
      && (forall k | k in bytes :: k < msgLen && data[HEADER_LENGTH + k] == bytes[k])
      && (reassembly == null <==> View().Complete())
      && (reassembly != null ==> Records(reassembly[..], msgLen, bytes.Keys))
    }

    ghost function View(): Partial
      reads this
    {
      Partial(typ, msgLen, bytes)
    }

    constructor (h: Header)
      requires h.Fits()
      ensures Valid() && fresh(repr)
      ensures seqNum == h.seqNum && View() == Partial(h.typ, h.msgLen, map[])
    {
      typ, seqNum, msgLen := h.typ, h.seqNum, h.msgLen;
      var d := new byte[HEADER_LENGTH + h.msgLen];
      var header := HeaderBytes(h.(fragOff := 0, fragLen := h.msgLen));
      forall i | 0 <= i < HEADER_LENGTH {
        d[i] := header[i];
      }
      data := d;
      bytes := map[];
      if h.msgLen > 0 {
        var mask := new bv8[(h.msgLen + 7) / 8](_ => 0);
        assert forall k: nat | k < 8 * mask.Length :: !Marked(mask[..], k);
        reassembly := mask;
        repr := {this, d, mask};
      } else {
        reassembly := null;
        repr := {this, d};
      }
      new;
      assert data[..HEADER_LENGTH] == header;
      if h.msgLen > 0 {
        assert 0 !in bytes.Keys;
      }
    }

    /** Copies a fragment body into place and marks it received. */
    method Insert(off: nat, body: seq<byte>)
      requires Valid() && reassembly != null && off + |body| <= msgLen
      modifies repr
      ensures Valid() && View() == old(View()).Insert(off, body)
    {
      hide Records, HeaderBytes;
      forall i | 0 <= i < |body| {
        data[HEADER_LENGTH + off + i] := body[i];
      }
      bytes := old(View()).Insert(off, body).bytes;
      assert data[..HEADER_LENGTH] == old(data[..HEADER_LENGTH]);
      assert reassembly[..] == old(reassembly[..]);
      MarkReceived(off, off + |body|, old(bytes.Keys));
    }

    /** `dtls1_hm_fragment_mark`. */
    method MarkReceived(start: nat, end: nat, ghost before: set<nat>)
      requires this in repr && reassembly != null && reassembly in repr && reassembly as object != data
      requires start <= end <= msgLen
      requires Records(reassembly[..], msgLen, before) && !Covers(before, msgLen)
      requires bytes.Keys == before + Range(start, end)
      modifies `reassembly, reassembly
      ensures reassembly == null || reassembly == old(reassembly)
      ensures reassembly == null <==> Covers(bytes.Keys, msgLen)
      ensures reassembly != null ==> Records(reassembly[..], msgLen, bytes.Keys)
    {
      if start == end {
        assert bytes.Keys == before;
        return;
      }
      SetRange(reassembly, start, end);
      var complete := IsComplete(reassembly, msgLen, bytes.Keys);
      if complete {
        reassembly := null;
      }
    }
  }

  /** The receiving side of a DTLS connection's handshake layer. */
  class Reader {
    const ring: array<HmFragment?>
    const epoch: nat
    const limit: nat
    var readSeq: nat
    ghost var slots: map<nat, Partial>
    ghost var repr: set<object>

    ghost predicate Valid()
      reads this, repr
      ensures Valid() ==> this in repr && ring in repr && ring.Length == MAX_FLIGHT
    {
      && this in repr && ring in repr && ring.Length == MAX_FLIGHT
      && (forall i | 0 <= i < MAX_FLIGHT && ring[i] != null :: SlotValid(i))
      && (forall i, j | 0 <= i < j < MAX_FLIGHT && ring[i] != null && ring[j] != null ::
            ring[i].repr !! ring[j].repr)
      && (forall s | s in slots :: ring[s % MAX_FLIGHT] != null && ring[s % MAX_FLIGHT].seqNum == s)
    }

    ghost predicate SlotValid(i: nat)
      requires i < MAX_FLIGHT && ring.Length == MAX_FLIGHT && this in repr && ring in repr
      requires ring[i] != null
      reads this, repr
    {
      var m := ring[i];
      && m in repr && m.repr <= repr && this !in m.repr && ring !in m.repr
      && m.Valid()
      && m.seqNum % MAX_FLIGHT == i && readSeq <= m.seqNum < readSeq + MAX_FLIGHT
      && m.seqNum in slots && slots[m.seqNum] == m.View()
    }

    ghost function State(): ReaderState
      reads this
    {
      ReaderState(epoch, limit, readSeq, slots)
    }

    constructor (epoch: nat, limit: nat, readSeq: nat)
      ensures Valid() && fresh(repr)
      ensures State() == ReaderState(epoch, limit, readSeq, map[])
    {
      this.epoch, this.limit, this.readSeq := epoch, limit, readSeq;
      slots := map[];
      var r := new HmFragment?[MAX_FLIGHT](_ => null);
      ring := r;
      repr := {this, r};
    }

    /**
     `dtls1_get_incoming_message`: the slot for the message of header `h`,
     created on its first fragment; null when the fragment must be rejected.
     */
    method GetIncomingMessage(h: Header) returns (m: HmFragment?)
      requires Valid() && h.Fits()
      modifies this, ring
      ensures Valid() && fresh(repr - old(repr)) && readSeq == old(readSeq)
      ensures m == null <==>
              || h.seqNum < readSeq || h.seqNum - readSeq >= MAX_FLIGHT
              || old(State()).Buffered(h).typ != h.typ || old(State()).Buffered(h).msgLen != h.msgLen
      ensures m != null ==> m == ring[h.seqNum % MAX_FLIGHT] && m.seqNum == h.seqNum && m.repr <= repr
      ensures m != null ==> (m.reassembly == null <==> old(State()).Buffered(h).Complete())
      ensures m != null ==> slots == old(slots)[h.seqNum := old(State()).Buffered(h)]
      ensures m == null ==> slots == old(slots)
    {
      if h.seqNum < readSeq || h.seqNum - readSeq >= MAX_FLIGHT {
        return null;
      }
      var idx := h.seqNum % MAX_FLIGHT;
      m := ring[idx];
      if m != null {
        assert SlotValid(idx);
        // The ring never holds two messages of one flight in the same slot.
        assert m.seqNum == h.seqNum by { SameSlot(readSeq, m.seqNum, h.seqNum); }
        if m.typ != h.typ || m.msgLen != h.msgLen {
          m := null;
        }
        return;
      }
      m := AddSlot(h);
      assert SlotValid(idx);
    }

    /** Starts a message on its first fragment. */
    method AddSlot(h: Header) returns (m: HmFragment)
      requires Valid() && h.Fits() && readSeq <= h.seqNum < readSeq + MAX_FLIGHT
      requires ring[h.seqNum % MAX_FLIGHT] == null
      modifies this, ring
      ensures Valid() && fresh(repr - old(repr)) && readSeq == old(readSeq)
      ensures m == ring[h.seqNum % MAX_FLIGHT] && m.seqNum == h.seqNum
      ensures h.seqNum !in old(slots) && slots == old(slots)[h.seqNum := Partial(h.typ, h.msgLen, map[])]
    {
      hide HmFragment.Valid;
      var idx := h.seqNum % MAX_FLIGHT;
      m := new HmFragment(h);
      ring[idx] := m;
      slots := slots[h.seqNum := m.View()];
      repr := repr + m.repr;
      forall i | 0 <= i < MAX_FLIGHT && ring[i] != null
        ensures SlotValid(i)
      {
        if i != idx {
          assert old(SlotValid(i));
        }
      }
    }

    /** `dtls1_read_message` on the body of one handshake record. */
    method ReadMessage(record: seq<byte>) returns (ok: bool)
      requires Valid()
      modifies repr
      ensures Valid() && fresh(repr - old(repr))
      ensures ok <==> old(State()).ReadRecord(record).Some?
      ensures ok ==> State() == old(State()).ReadRecord(record).value
    {
      var cbs := record;
      while |cbs| > 0
        invariant Valid() && fresh(repr - old(repr))
        invariant old(State()).ReadRecord(record) == State().ReadRecord(cbs)
        decreases |cbs|
      {
        var parsed := Parse(cbs);
        if parsed.None? {
          return false;
        }
        var (f, rest) := parsed.value;
        var accepted := ReadFragment(f);
        if !accepted {
          return false;
        }
        cbs := rest;
      }
      return true;
    }

    /** The body of the loop of `dtls1_read_message`. */
    method ReadFragment(f: Fragment) returns (ok: bool)
      requires Valid() && f.WireValid()
      modifies repr
      ensures Valid() && fresh(repr - old(repr))
      ensures ok <==> old(State()).Accept(f).Some?
      ensures ok ==> State() == old(State()).Accept(f).value
    {
      var h := f.hdr;
      if h.fragOff > h.msgLen || h.fragOff + h.fragLen > h.msgLen || h.msgLen > limit {
        return false;
      }
      if epoch == 1 && h.seqNum != readSeq {
        return false;
      }
      if h.seqNum < readSeq || h.seqNum > readSeq + MAX_FLIGHT {
        return true;
      }
      ok := BufferFragment(f);
    }

    /** Buffers a fragment that lies inside its message and is not from the past. */
    method BufferFragment(f: Fragment) returns (ok: bool)
      requires Valid() && f.WireValid() && f.hdr.fragOff + f.hdr.fragLen <= f.hdr.msgLen
      modifies repr
      ensures Valid() && fresh(repr - old(repr)) && readSeq == old(readSeq)
      ensures ok <==> readSeq <= f.hdr.seqNum < readSeq + MAX_FLIGHT
                      && old(State()).Buffered(f.hdr).typ == f.hdr.typ
                      && old(State()).Buffered(f.hdr).msgLen == f.hdr.msgLen
      ensures ok ==> var p := old(State()).Buffered(f.hdr);
                     slots == old(slots)[f.hdr.seqNum :=
                       if p.Complete() then p else p.Insert(f.hdr.fragOff, f.body)]
    {
      hide Valid, SlotValid;
      var h := f.hdr;
      var m := GetIncomingMessage(h);
      if m == null {
        return false;
      }
      ok := true;
      ghost var p := old(State()).Buffered(h);
      if m.reassembly != null {
        Store(m, h.fragOff, f.body);
        assert slots == old(slots)[h.seqNum := p.Insert(h.fragOff, f.body)];
      }
    }

    /** Adds a fragment to a buffered message. */
    method Store(m: HmFragment, off: nat, body: seq<byte>)
      requires Valid() && ring[m.seqNum % MAX_FLIGHT] == m
      requires m.seqNum in slots && m.reassembly != null && off + |body| <= slots[m.seqNum].msgLen
      modifies `slots, m.repr
      ensures Valid() && repr == old(repr) && readSeq == old(readSeq)
      ensures slots == old(slots)[m.seqNum := old(slots[m.seqNum]).Insert(off, body)]
    {
      hide HeaderBytes, Records, Covers;
      assert SlotValid(m.seqNum % MAX_FLIGHT);
      m.Insert(off, body);
      slots := slots[m.seqNum := m.View()];
      forall i | 0 <= i < MAX_FLIGHT && ring[i] != null
        ensures SlotValid(i)
      {
        assert old(SlotValid(i));
        if i != m.seqNum % MAX_FLIGHT {
          assert ring[i].repr !! m.repr;
        }
      }
    }

    /** `dtls1_get_message`: the message in sequence, if all of it is here. */
    method GetMessage() returns (msg: Option<Message>, raw: seq<byte>)
      requires Valid()
      ensures msg.Some? <==> State().HasMessage()
      ensures msg.Some? ==> msg.value == State().Current()
      ensures msg.Some? ==>
                readSeq < 0x1_0000 && |msg.value.body| < 0x100_0000 && raw == WholeMessage(readSeq, msg.value)
    {
      var m := ring[readSeq % MAX_FLIGHT];
      if m != null {
        assert SlotValid(readSeq % MAX_FLIGHT);
        SameSlot(readSeq, m.seqNum, readSeq);
      }
      if m == null || m.reassembly != null {
        return None, [];
      }
      assert m.data[HEADER_LENGTH..] == State().slots[readSeq].Body();
      assert m.data[..] == m.data[..HEADER_LENGTH] + m.data[HEADER_LENGTH..];
      return Some(Message(m.typ, m.data[HEADER_LENGTH..])), m.data[..];
    }

    /**
     `dtls_has_incoming_messages`: whether anything is buffered, apart from the
     current message once it has been taken up.
     */
    method HasIncomingMessages(hasMessage: bool) returns (any: bool)
      requires Valid() && (hasMessage ==> State().HasMessage())
      ensures any <==> exists s :: s in slots && !(hasMessage && s == readSeq)
    {
      var current := readSeq % MAX_FLIGHT;
      var i := 0;
      while i < MAX_FLIGHT
        invariant 0 <= i <= MAX_FLIGHT
        invariant forall s | s in slots && s % MAX_FLIGHT < i :: hasMessage && s == readSeq
      {
        if ring[i] != null {
          assert SlotValid(i);
          if !(hasMessage && i == current) {
            assert ring[i].seqNum in slots;
            return true;
          }
          SameSlot(readSeq, ring[i].seqNum, readSeq);
        }
        i := i + 1;
      }
      return false;
    }

    /** `dtls1_next_message`: releases the message just read. */
    method NextMessage()
      requires Valid() && State().HasMessage()
      modifies this, ring
      ensures Valid() && repr == old(repr)
      ensures State() == old(State()).Next()
    {
      hide HmFragment.Valid;
      var index := readSeq % MAX_FLIGHT;
      assert SlotValid(index);
      ring[index] := null;
      slots := slots - {readSeq};
      readSeq := readSeq + 1;
      forall i | 0 <= i < MAX_FLIGHT && ring[i] != null
        ensures SlotValid(i)
      {
        assert old(SlotValid(i));
        assert old(ring[i]) == ring[i];
        assert ring[i].Valid() && ring[i].seqNum != old(readSeq);
      }
      forall s | s in slots
        ensures ring[s % MAX_FLIGHT] != null && ring[s % MAX_FLIGHT].seqNum == s
      {
        assert old(ring[s % MAX_FLIGHT]).seqNum == s;
      }
    }
  }

  // What becomes of a well-formed fragment of a message outside the window of
  // seven: one from the past, or too far ahead, is ignored, except that the
  // number right behind the window makes the read fail.
  lemma OutsideWindow(r: ReaderState, f: Fragment)
    requires f.hdr.fragOff + f.hdr.fragLen <= f.hdr.msgLen <= r.limit && r.epoch != 1
    requires f.hdr.seqNum < r.readSeq || f.hdr.seqNum >= r.readSeq + MAX_FLIGHT
    ensures r.Accept(f) == Some(r) <==> f.hdr.seqNum != r.readSeq + MAX_FLIGHT
    ensures r.Accept(f) == None <==> f.hdr.seqNum == r.readSeq + MAX_FLIGHT
  {
  }

  // Two numbers of one window of seven that share a slot are equal.
  lemma SameSlot(base: nat, a: nat, b: nat)
    requires base <= a < base + MAX_FLIGHT && base <= b < base + MAX_FLIGHT
    requires a % MAX_FLIGHT == b % MAX_FLIGHT
    ensures a == b
  {
  }
}
