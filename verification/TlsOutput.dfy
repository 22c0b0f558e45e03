/** The TLS output path: a flight of handshake records and a write buffer, in front of a transport
    that may take any part of what it is given (BoringSSL/ssl/s3_pkt.cc:192-346,
    BoringSSL/ssl/s3_both.cc:135-275, BoringSSL/ssl/ssl_buffer.cc:42-90, 206-258). */
module TlsOutput {
  import opened Wrappers

  const MAX_PLAIN := 16384
  const MAX_BUFFER := 0xffff
  const ALIGN := 8

  const CHANGE_CIPHER_SPEC: nat := 20
  const HANDSHAKE: nat := 22
  const APPLICATION_DATA: nat := 23

  /** Sealing a record of a type under a running number: it may fail, and adds at most
      `overhead` bytes. */
  datatype Sealer = Sealer(overhead: nat, seal: (nat, nat, seq<byte>) -> Option<seq<byte>>) {
    ghost predicate Valid() {
      forall n: nat, kind: nat, body :: seal(n, kind, body).Some? ==>
        |seal(n, kind, body).value| <= |body| + overhead
    }
  }

  /** `SSL3_BUFFER`, as the write path uses it. */
  class Buffer {
    var buf: array?<byte>
    var offset: nat
    var len: nat
    var cap: nat

    ghost predicate Valid()
      reads this
    {
      && len <= cap <= MAX_BUFFER
      && (buf == null ==> offset == len == cap == 0)
      && (buf != null ==> offset + cap <= buf.Length)
    }

    /** The bytes still to be written. */
    function Content(): (b: seq<byte>)
      requires Valid()
      reads this, buf
      ensures |b| == len
    {
      if buf == null then [] else buf[offset..offset + len]
    }

    constructor ()
      ensures Valid() && buf == null
    {
      buf, offset, len, cap := null, 0, 0, 0;
    }

    /** `ssl_write_buffer_init`: a new buffer, placed so that the record body is aligned. */
    method Init(maxLen: nat) returns (ok: bool)
      requires Valid() && 0 < maxLen
      modifies this
      ensures Valid()
      ensures ok == (old(buf) == null && maxLen <= MAX_BUFFER)
      ensures ok ==> buf != null && fresh(buf) && len == 0 && cap == maxLen
      ensures !ok ==> buf == old(buf) && len == old(len) && offset == old(offset)
    {
      if buf != null || maxLen > MAX_BUFFER {
        return false;
      }
      var slack: nat := *;
      buf := new byte[maxLen + ALIGN - 1];
      offset := slack % ALIGN;
      cap := maxLen;
      return true;
    }

    /** `consume_buffer`. */
    method Consume(n: nat)
      requires Valid() && n <= len && buf != null
      modifies this`offset, this`len, this`cap
      ensures Valid() && Content() == old(Content())[n..] && len == old(len) - n
    {
      offset := offset + n;
      len := len - n;
      cap := cap - n;
    }

    method Clear()
      modifies this
      ensures Valid() && buf == null && Content() == []
    {
      buf, offset, len, cap := null, 0, 0, 0;
    }

    /** The first `n` bytes, whatever the length is set to. */
    ghost function Front(n: nat): (b: seq<byte>)
      requires Valid() && buf != null && n <= cap
      reads this, buf
      ensures |b| == n
    {
      buf[offset..offset + n]
    }

    /** Writes `data` behind the first `at` bytes of the buffer. */
    method Put(at: nat, data: seq<byte>)
      requires Valid() && buf != null && at + |data| <= cap
      modifies buf
      ensures Valid() && Front(at + |data|) == old(Front(at)) + data
    {
      ghost var front := Front(at);
      var i := 0;
      while i < |data|
        invariant i <= |data| && Front(at + i) == front + data[..i]
      {
        buf[offset + at + i] := data[i];
        i := i + 1;
        assert Front(at + i) == Front(at + i - 1) + [data[i - 1]];
      }
      assert data[..i] == data;
    }

    method SetLen(n: nat)
      requires Valid() && n <= cap && buf != null
      modifies this`len
      ensures Valid() && len == n && Content() == old(Front(n))
    {
      len := n;
    }
  }

  lemma Behind(a: seq<byte>, b: seq<byte>, c: seq<byte>)
    ensures a + (b + c) == a + b + c
  {
  }

  lemma Took(sent: seq<byte>, data: seq<byte>, n: nat, rest: seq<byte>)
    requires n <= |data|
    ensures sent + data[..n] + data[n..] == sent + data
    ensures sent + data[..n] + (data[n..] + rest) == sent + (data + rest)
    ensures sent + data + rest == sent + (data + rest)
  {
  }

  /** The bodies of some records, one after another. */
  function Joined(cuts: seq<seq<byte>>): seq<byte> {
    if cuts == [] then [] else Joined(cuts[..|cuts| - 1]) + cuts[|cuts| - 1]
  }

  lemma JoinedNothing(msg: seq<byte>, had: seq<byte>)
    ensures Joined([]) + msg == msg && had + Joined([]) == had
  {
  }

  /** One more record is cut off the rest of a message. */
  lemma CutOne(had: seq<byte>, cuts: seq<seq<byte>>, rest: seq<byte>, n: nat)
    requires n <= |rest|
    ensures Joined(cuts + [rest[..n]]) == Joined(cuts) + rest[..n]
    ensures Joined(cuts + [rest[..n]]) + rest[n..] == Joined(cuts) + rest
    ensures had + Joined(cuts + [rest[..n]]) == had + Joined(cuts) + rest[..n]
  {
    var more := cuts + [rest[..n]];
    assert more[..|cuts|] == cuts;
    assert Joined(more) == Joined(cuts) + rest[..n];
    assert rest[..n] + rest[n..] == rest;
  }

  class Output {
    const sealer: Sealer
    const maxSendFragment: nat
    const partialWrite: bool
    const movingBuffer: bool

    const buffer: Buffer
    var hasFlight: bool
    var flight: seq<byte>
    var flightOffset: nat

    /** Bytes of the caller's current write that are already sealed and written. */
    var wnum: nat
    var pending: bool
    var pendTot: nat
    var pendAddr: nat
    var pendType: nat
    var pendRet: nat

    /** What the transport took, and how often it refused. */
    var transport: seq<byte>
    ghost var refusals: nat

    /** How many seals were asked for; every sealed byte in sealing order, the application data
        and the handshake bytes in the records, and whether a failed seal has cost the flight. */
    var seals: nat
    ghost var sealed: seq<byte>
    ghost var plain: seq<byte>
    ghost var handshake: seq<byte>
    ghost var astray: bool

    ghost predicate Shape()
      reads this`flight, this`flightOffset, this`hasFlight, buffer
    {
      && buffer.Valid() && sealer.Valid() && 0 < maxSendFragment <= MAX_PLAIN
      && flightOffset <= |flight| && (!hasFlight ==> flight == [])
    }

    /** Between calls the write buffer is in use only for a write that was interrupted. */
    ghost predicate Valid()
      reads this`flight, this`flightOffset, this`hasFlight, this`pending, this`pendTot, this`pendRet, buffer
      ensures Valid() ==> Shape() && 0 < maxSendFragment && flightOffset <= |flight|
    {
      && Shape()
      && (pending ==> 0 < pendTot == pendRet <= MAX_PLAIN)
      && (!pending ==> buffer.len == 0)
    }

    /** The write buffer is taken although no write is pending: a failed seal has left it so. */
    ghost predicate Busy()
      reads this`pending, buffer`buf
    {
      !pending && buffer.buf != null
    }

    /** The part of the flight that is still to be sent. */
    ghost function Unsent(): seq<byte>
      requires flightOffset <= |flight|
      reads this`flight, this`flightOffset
    {
      flight[flightOffset..]
    }

    /** In order: what the transport took, the write buffer, the rest of the flight. */
    ghost function Path(): seq<byte>
      requires Shape()
      reads this`flight, this`flightOffset, this`hasFlight, this`transport, buffer, buffer.buf
    {
      transport + buffer.Content() + Unsent()
    }

    /** The path holds every sealed byte, in sealing order. */
    ghost predicate Conserved()
      requires Shape()
      reads this`flight, this`flightOffset, this`hasFlight, this`transport, this`sealed, this`astray, buffer, buffer.buf
    {
      !astray ==> Path() == sealed
    }

    constructor (sealer: Sealer, maxSendFragment: nat, partialWrite: bool, movingBuffer: bool)
      requires sealer.Valid() && 0 < maxSendFragment <= MAX_PLAIN
      ensures Valid() && Conserved() && !astray && sealed == plain == handshake == transport == []
      ensures flight == [] && flightOffset == 0 && wnum == seals == 0 && !pending
      ensures fresh(buffer) && buffer.buf == null && this.sealer == sealer && this.maxSendFragment == maxSendFragment
    {
      this.sealer, this.maxSendFragment := sealer, maxSendFragment;
      this.partialWrite, this.movingBuffer := partialWrite, movingBuffer;
      buffer := new Buffer();
      hasFlight, flight, flightOffset := false, [], 0;
      wnum, pending, pendTot, pendAddr, pendType, pendRet := 0, false, 0, 0, 0, 0;
      transport, sealed, plain, handshake, seals, astray := [], [], [], [], 0, false;
      refusals := 0;
    }

    // ----- Below: the record layer and the transport ------------------------------------

    /** `tls_seal_record`, by its contract. */
    method SealRecord(kind: nat, body: seq<byte>) returns (out: Option<seq<byte>>)
      requires sealer.Valid()
      modifies this`seals, this`sealed, this`plain, this`handshake
      ensures out == sealer.seal(old(seals), kind, body) && seals == old(seals) + 1
      ensures out.Some? ==> |out.value| <= |body| + sealer.overhead
      ensures sealed == old(sealed) + if out.Some? then out.value else []
      ensures plain == old(plain) + if out.Some? && kind == APPLICATION_DATA then body else []
      ensures handshake == old(handshake) + if out.Some? && kind == HANDSHAKE then body else []
    {
      out := sealer.seal(seals, kind, body);
      seals := seals + 1;
      if out.Some? {
        sealed := sealed + out.value;
        if kind == APPLICATION_DATA {
          plain := plain + body;
        }
        if kind == HANDSHAKE {
          handshake := handshake + body;
        }
      }
      assert sealed == old(sealed) + if out.Some? then out.value else [];
    }

    /** `BIO_write`: fails, or takes some first part of the data. */
    method BioWrite(data: seq<byte>) returns (ret: int)
      requires data != []
      modifies this`transport, this`refusals
      ensures ret <= |data| && refusals == old(refusals) + if ret > 0 then 0 else 1
      ensures transport == old(transport) + if ret > 0 then data[..ret] else []
    {
      var took: int := *;
      ret := if took <= |data| then took else |data|;
      if ret > 0 {
        transport := transport + data[..ret];
      } else {
        refusals := refusals + 1;
      }
    }

    /** `BIO_flush`. */
    method BioFlush() returns (ok: bool)
      modifies this`refusals
      ensures refusals == old(refusals) + if ok then 0 else 1
    {
      ok := *;
      if !ok {
        refusals := refusals + 1;
      }
    }

    // ----- The flight ---------------------------------------------------------------------

    /** `add_record_to_flight`. */
    method AddRecordToFlight(kind: nat, body: seq<byte>) returns (ok: bool)
      requires Valid() && Conserved() && flightOffset == 0
      modifies this`hasFlight, this`flight, this`seals, this`sealed, this`plain, this`handshake
      ensures Valid() && Conserved()
      ensures ok == sealer.seal(old(seals), kind, body).Some? && hasFlight && seals == old(seals) + 1
      ensures flight == if ok then old(flight) + sealer.seal(old(seals), kind, body).value else old(flight)
      ensures plain == old(plain) + if ok && kind == APPLICATION_DATA then body else []
      ensures handshake == old(handshake) + if ok && kind == HANDSHAKE then body else []
    {
      hide Buffer.Content, Buffer.Valid;
      hasFlight := true;
      ghost var unsent := Unsent();
      var out := SealRecord(kind, body);
      if out.None? {
        return false;
      }
      flight := flight + out.value;
      assert Unsent() == unsent + out.value;
      Behind(transport + buffer.Content(), unsent, out.value);
      return true;
    }

    /** The body of the record that goes on with a message after its first `done` bytes. */
    function NextCut(msg: seq<byte>, done: nat): seq<byte>
      requires done <= |msg|
    {
      msg[done..done + Chunk(|msg| - done)]
    }

    /** `ssl3_add_message`: one record after another, at least one; together they hold the message,
        or a first part of it when a seal fails. `cuts` are the bodies of the records. */
    method AddMessage(msg: seq<byte>) returns (ok: bool, ghost cuts: seq<seq<byte>>)
      requires Valid() && Conserved() && flightOffset == 0
      modifies this`hasFlight, this`flight, this`seals, this`sealed, this`plain, this`handshake
      ensures Valid() && Conserved() && plain == old(plain)
      ensures handshake == old(handshake) + Joined(cuts) && Joined(cuts) <= msg
      ensures ok ==> Joined(cuts) == msg && cuts != [] && seals == old(seals) + |cuts|
      ensures !ok ==> seals == old(seals) + |cuts| + 1
      ensures !ok ==> sealer.seal(seals - 1, HANDSHAKE, NextCut(msg, |Joined(cuts)|)).None?
      ensures forall c | c in cuts :: |c| <= maxSendFragment
    {
      hide Valid, Conserved, Joined;
      JoinedNothing(msg, handshake);
      var rest := msg;
      var more := true;
      cuts := [];
      while more
        invariant Valid() && Conserved() && plain == old(plain) && flightOffset == 0
        invariant handshake == old(handshake) + Joined(cuts) && Joined(cuts) + rest == msg
        invariant forall c | c in cuts :: |c| <= maxSendFragment
        invariant seals == old(seals) + |cuts|
        invariant !more ==> rest == [] && cuts != []
        decreases |rest| + if more then 1 else 0
      {
        var n := Chunk(|rest|);
        var chunk := rest[..n];
        CutOne(old(handshake), cuts, rest, n);
        assert chunk == NextCut(Joined(cuts) + rest, |Joined(cuts)|);
        rest := rest[n..];
        ok := AddRecordToFlight(HANDSHAKE, chunk);
        if !ok {
          return;
        }
        cuts := cuts + [chunk];
        more := rest != [];
      }
      ok := true;
    }

    method AddChangeCipherSpec() returns (ok: bool)
      requires Valid() && Conserved() && flightOffset == 0
      modifies this`hasFlight, this`flight, this`seals, this`sealed, this`plain, this`handshake
      ensures Valid() && Conserved() && plain == old(plain) && handshake == old(handshake)
      ensures ok == sealer.seal(old(seals), CHANGE_CIPHER_SPEC, [1]).Some? && seals == old(seals) + 1
      ensures ok ==> flight == old(flight) + sealer.seal(old(seals), CHANGE_CIPHER_SPEC, [1]).value
    {
      ok := AddRecordToFlight(CHANGE_CIPHER_SPEC, [1]);
    }

    /** `tls_write_buffer_flush`. */
    method FlushBuffer() returns (ret: int)
      requires buffer.Valid()
      modifies this`transport, this`refusals, buffer
      ensures buffer.Valid() && transport + buffer.Content() == old(transport + buffer.Content())
      ensures refusals == old(refusals) + if ret > 0 then 0 else 1
      ensures ret > 0 ==> buffer.buf == null
      ensures ret <= 0 ==> 0 < buffer.len && buffer.buf == old(buffer.buf)
    {
      hide Buffer.Content;
      while buffer.len > 0
        invariant buffer.Valid() && buffer.buf == old(buffer.buf) && refusals == old(refusals)
        invariant transport + buffer.Content() == old(transport + buffer.Content())
        decreases buffer.len
      {
        ghost var content, sent := buffer.Content(), transport;
        ret := BioWrite(buffer.Content());
        if ret <= 0 {
          return;
        }
        buffer.Consume(ret);
        Took(sent, content, ret, []);
      }
      buffer.Clear();
      ret := 1;
    }

    /** The flight itself, piece by piece. */
    method SendFlight() returns (ret: int)
      requires flightOffset <= |flight|
      modifies this`transport, this`refusals, this`flightOffset
      ensures flightOffset <= |flight| && transport + Unsent() == old(transport + Unsent())
      ensures refusals == old(refusals) + if ret > 0 then 0 else 1
      ensures ret > 0 ==> Unsent() == []
    {
      ret := 1;
      while flightOffset < |flight|
        invariant flightOffset <= |flight| && transport + Unsent() == old(transport + Unsent())
        invariant refusals == old(refusals)
        decreases |flight| - flightOffset
      {
        ghost var rest, sent := Unsent(), transport;
        ret := BioWrite(flight[flightOffset..]);
        if ret <= 0 {
          return;
        }
        flightOffset := flightOffset + ret;
        assert Unsent() == rest[ret..];
        Took(sent, rest, ret, []);
      }
      ret := 1;
    }

    /** `ssl3_flush_flight`: the write buffer goes first. */
    method FlushFlight() returns (ret: int)
      requires Valid() && Conserved()
      modifies this`transport, this`refusals, this`flight, this`flightOffset, this`hasFlight, buffer
      ensures Valid() && Conserved()
      ensures buffer.buf == old(buffer.buf) || buffer.buf == null
      ensures refusals == old(refusals) + if ret > 0 then 0 else 1
      ensures ret > 0 ==> !hasFlight && (old(hasFlight) ==> buffer.len == 0)
      ensures ret > 0 && old(hasFlight) && !astray ==> transport == sealed
      ensures !old(hasFlight) ==> ret > 0 && buffer.buf == old(buffer.buf) && buffer.len == old(buffer.len)
    {
      hide Buffer.Content;
      if !hasFlight {
        return 1;
      }
      if buffer.len > 0 {
        ret := FlushBuffer();
        if ret <= 0 {
          return;
        }
      }
      assert buffer.Content() == [] && transport + [] == transport;
      ret := SendFlight();
      assert transport + [] == transport;
      if ret <= 0 {
        return;
      }
      var flushed := BioFlush();
      if !flushed {
        return -1;
      }
      hasFlight, flight, flightOffset := false, [], 0;
      return 1;
    }

    // ----- Application data ---------------------------------------------------------------

    /** A retry that does not name the write that was interrupted. */
    ghost predicate BadRetry(kind: nat, addr: nat, len: nat)
      reads this`pendTot, this`pendAddr, this`pendType
    {
      pendTot > len || (!movingBuffer && pendAddr != addr) || pendType != kind
    }

    /** `ssl3_write_pending`. */
    method WritePending(kind: nat, addr: nat, len: nat) returns (ret: int)
      requires Valid() && Conserved() && pending
      modifies this`transport, this`refusals, this`pending, buffer
      ensures Valid() && Conserved()
      ensures refusals == old(refusals) + if ret > 0 || old(BadRetry(kind, addr, len)) then 0 else 1
      ensures ret > 0 ==> !pending && ret == pendRet <= len && buffer.buf == null
      ensures ret > 0 ==> !old(BadRetry(kind, addr, len))
      ensures ret <= 0 ==> pending && buffer.buf == old(buffer.buf)
      ensures old(BadRetry(kind, addr, len)) ==> ret == -1 && buffer.Content() == old(buffer.Content())
    {
      hide Buffer.Content;
      if pendTot > len || (!movingBuffer && pendAddr != addr) || pendType != kind {
        return -1;
      }
      ret := FlushBuffer();
      if ret <= 0 {
        return;
      }
      pending := false;
      ret := pendRet;
    }

    /** The new buffer takes over what is left of the flight. */
    method MoveFlight(flightLen: nat)
      requires Valid() && flightLen == |flight| - flightOffset <= buffer.cap && buffer.len == 0 && buffer.buf != null
      modifies this`hasFlight, this`flight, this`flightOffset, buffer.buf
      ensures Valid() && !hasFlight && flight == [] && flightOffset == 0
      ensures buffer.Front(flightLen) == old(Unsent())
    {
      assert buffer.Front(0) == [];
      if hasFlight {
        buffer.Put(0, flight[flightOffset..]);
        hasFlight, flight, flightOffset := false, [], 0;
      }
    }

    /** A new record of `len` bytes is sealed: the buffer is free, and is not too small for it and
        for what is left of the flight. */
    ghost predicate Seals(len: nat)
      reads this`flight, this`flightOffset, this`pending, buffer`buf
    {
      && !pending && 0 < len <= MAX_PLAIN && flightOffset <= |flight|
      && buffer.buf == null && len + sealer.overhead + |Unsent()| <= MAX_BUFFER
    }

    /** A record that is not even tried: a pending one by a bad retry, a new one because it is not sealed. */
    ghost predicate Denied(kind: nat, addr: nat, len: nat)
      reads this`pending, this`pendTot, this`pendAddr, this`pendType, this`flight, this`flightOffset, buffer`buf
    {
      if pending then BadRetry(kind, addr, len) else !Seals(len)
    }

    /** `do_ssl3_write`: seals one record behind what is left of the flight, and writes it. When
        the seal fails, the flight is gone with the buffer it was moved to. */
    method DoWrite(kind: nat, addr: nat, data: seq<byte>) returns (ret: int, ghost failed: bool)
      requires Valid() && Conserved()
      modifies this, buffer, buffer.buf
      ensures Valid() && Conserved()
      ensures wnum == old(wnum) && ret <= |data|
      ensures buffer.buf == old(buffer.buf) || buffer.buf == null || fresh(buffer.buf)
      ensures Busy() ==> failed || (!old(pending) && buffer.buf == old(buffer.buf))
      ensures failed <==> old(Seals(|data|)) && sealer.seal(old(seals), kind, data).None?
      ensures seals == old(seals) + if old(Seals(|data|)) then 1 else 0
      ensures astray == (old(astray) || (failed && old(Unsent()) != []))
      ensures failed && old(Unsent()) != [] && !old(astray) ==> sealed == Path() + old(Unsent())
      ensures failed ==> ret == -1 && !pending && buffer.buf != null && sealed == old(sealed)
      ensures refusals == old(refusals) + if ret > 0 || failed || old(Denied(kind, addr, |data|)) then 0 else 1
      ensures old(Denied(kind, addr, |data|)) ==> ret <= 0 && pending == old(pending)
      ensures ret <= 0 && !failed ==> Denied(kind, addr, |data|) == old(Denied(kind, addr, |data|))
      ensures Unsent() == if old(Seals(|data|)) then [] else old(Unsent())
      ensures ret > 0 ==> !pending && buffer.buf == null
      ensures old(pending) ==> plain == old(plain) && sealed == old(sealed)
      ensures old(pending) ==> pendTot == old(pendTot) && pendAddr == old(pendAddr) && pendType == old(pendType)
      ensures old(pending) ==> if ret > 0 then ret == pendTot else pending
      ensures !old(pending) && (ret > 0 || pending) ==> 0 < |data| == pendTot && pendAddr == addr && pendType == kind
      ensures !old(pending) && (ret > 0 || pending) && kind == APPLICATION_DATA ==> plain == old(plain) + data
      ensures !old(pending) && ret > 0 ==> ret == |data|
      ensures !old(pending) && ret <= 0 && !pending ==> plain == old(plain)
      ensures kind != APPLICATION_DATA ==> plain == old(plain)
      ensures kind != HANDSHAKE ==> handshake == old(handshake)
    {
      hide Buffer.Content, Buffer.Valid, Conserved, Path, Unsent;
      failed := false;
      if pending {
        ret := WritePending(kind, addr, |data|);
        return;
      }
      if |data| > MAX_PLAIN {
        return -1, failed;
      }
      if |data| == 0 {
        return 0, failed;
      }
      ret, failed := WriteNew(kind, addr, data);
    }

    /** A new record is sealed, remembered and written. */
    method WriteNew(kind: nat, addr: nat, data: seq<byte>) returns (ret: int, ghost failed: bool)
      requires Valid() && Conserved() && !pending && 0 < |data| <= MAX_PLAIN
      modifies this, buffer
      ensures Valid() && Conserved() && wnum == old(wnum)
      ensures buffer.buf == old(buffer.buf) || buffer.buf == null || fresh(buffer.buf)
      ensures failed <==> old(Seals(|data|)) && sealer.seal(old(seals), kind, data).None?
      ensures seals == old(seals) + if old(Seals(|data|)) then 1 else 0
      ensures astray == (old(astray) || (failed && old(Unsent()) != []))
      ensures failed && old(Unsent()) != [] && !old(astray) ==> sealed == Path() + old(Unsent())
      ensures failed ==> ret == -1 && buffer.buf != null && sealed == old(sealed)
      ensures !old(Seals(|data|)) ==> ret == -1 && buffer.buf == old(buffer.buf)
      ensures refusals == old(refusals) + if ret <= 0 && pending then 1 else 0
      ensures Unsent() == if old(Seals(|data|)) then [] else old(Unsent())
      ensures ret > 0 ==> ret == |data| && !pending && buffer.buf == null
      ensures pending || ret > 0 <==> old(Seals(|data|)) && !failed
      ensures pending || ret > 0 ==> pendTot == |data| && pendAddr == addr && pendType == kind
      ensures plain == old(plain) + if (pending || ret > 0) && kind == APPLICATION_DATA then data else []
      ensures kind != HANDSHAKE ==> handshake == old(handshake)
    {
      hide Buffer.Content, Buffer.Valid, Conserved, Path, Unsent, Shape, Seals;
      var made;
      made, failed := SealBehindFlight(kind, data);
      if !made {
        return -1, failed;
      }
      pendTot, pendAddr, pendType, pendRet := |data|, addr, kind, |data|;
      pending := true;
      ret := WritePending(kind, addr, |data|);
    }

    /** What is left of the flight and the new record fill a new buffer. */
    method SealBehindFlight(kind: nat, data: seq<byte>) returns (made: bool, ghost failed: bool)
      requires Valid() && Conserved() && !pending && 0 < |data| <= MAX_PLAIN
      modifies this`hasFlight, this`flight, this`flightOffset, this`seals, this`sealed, this`plain,
        this`handshake, this`astray, buffer
      ensures Shape() && Conserved() && (made || Valid())
      ensures buffer.buf == old(buffer.buf) || fresh(buffer.buf)
      ensures !old(Seals(|data|)) ==> buffer.buf == old(buffer.buf)
      ensures made <==> old(Seals(|data|)) && sealer.seal(old(seals), kind, data).Some?
      ensures failed <==> old(Seals(|data|)) && sealer.seal(old(seals), kind, data).None?
      ensures seals == old(seals) + if old(Seals(|data|)) then 1 else 0
      ensures astray == (old(astray) || (failed && old(Unsent()) != []))
      ensures failed && old(Unsent()) != [] && !old(astray) ==> sealed == Path() + old(Unsent())
      ensures failed ==> buffer.buf != null && sealed == old(sealed)
      ensures Unsent() == if old(Seals(|data|)) then [] else old(Unsent())
      ensures made ==> plain == old(plain) + if kind == APPLICATION_DATA then data else []
      ensures !made ==> plain == old(plain)
      ensures kind != HANDSHAKE ==> handshake == old(handshake)
    {
      hide Buffer.Content, Buffer.Front, Buffer.Valid;
      failed := false;
      ghost var rest := Unsent();
      var flightLen := |flight| - flightOffset;
      made := buffer.Init(|data| + sealer.overhead + flightLen);
      if !made {
        assert buffer.Content() == [];
        return;
      }
      MoveFlight(flightLen);
      made := FillBuffer(kind, data, rest);
      failed := !made;
      astray := astray || (failed && flightLen > 0);
      Vanish(transport, rest);
    }

    /** The record behind the flight in the buffer. */
    method FillBuffer(kind: nat, data: seq<byte>, ghost rest: seq<byte>) returns (made: bool)
      requires Shape() && buffer.buf != null && buffer.len == 0 && flight == []
      requires buffer.cap == |data| + sealer.overhead + |rest| && buffer.Front(|rest|) == rest
      modifies this`seals, this`sealed, this`plain, this`handshake, buffer`len, buffer.buf
      ensures Shape() && buffer.buf == old(buffer.buf) && seals == old(seals) + 1
      ensures made == sealer.seal(old(seals), kind, data).Some?
      ensures made ==> buffer.Content() == rest + sealer.seal(old(seals), kind, data).value
      ensures made ==> sealed == old(sealed) + sealer.seal(old(seals), kind, data).value
      ensures !made ==> buffer.len == 0 && buffer.Content() == [] && sealed == old(sealed)
      ensures plain == old(plain) + if made && kind == APPLICATION_DATA then data else []
      ensures kind != HANDSHAKE ==> handshake == old(handshake)
    {
      hide Buffer.Content, Buffer.Front;
      var flightLen := buffer.cap - |data| - sealer.overhead;
      var out := SealRecord(kind, data);
      if out.None? {
        return false;
      }
      buffer.Put(flightLen, out.value);
      buffer.SetLen(flightLen + |out.value|);
      return true;
    }

    /** A write of `data` at `addr` that began when the application data sealed so far was `start`,
        and of which `tot` bytes are written: what has been sealed since is exactly the first part
        of `data`, once and in order. */
    ghost predicate InWriteAt(start: seq<byte>, addr: nat, data: seq<byte>, tot: nat)
      reads this`plain, this`pending, this`pendTot, this`pendAddr, this`pendType
    {
      && tot <= |data|
      && (pending ==>
            && tot + pendTot <= |data| && pendTot <= maxSendFragment
            && (movingBuffer || pendAddr == addr + tot) && pendType == APPLICATION_DATA)
      && plain == start + data[..tot + if pending then pendTot else 0]
    }

    ghost predicate InWrite(start: seq<byte>, addr: nat, data: seq<byte>)
      reads this`plain, this`wnum, this`pending, this`pendTot, this`pendAddr, this`pendType
    {
      InWriteAt(start, addr, data, wnum)
    }

    /** One record of such a write. */
    method WriteChunk(ghost start: seq<byte>, addr: nat, data: seq<byte>, tot: nat, nw: nat)
      returns (ret: int, ghost failed: bool)
      requires Valid() && Conserved() && tot + nw <= |data| && nw <= maxSendFragment
      requires nw == |data| - tot || nw == maxSendFragment
      modifies this, buffer, buffer.buf
      ensures Valid() && Conserved() && wnum == old(wnum) && handshake == old(handshake) && ret <= nw
      ensures buffer.buf == old(buffer.buf) || buffer.buf == null || fresh(buffer.buf)
      ensures Busy() ==> failed || (!old(pending) && buffer.buf == old(buffer.buf))
      ensures failed <==> old(Seals(nw)) && sealer.seal(old(seals), APPLICATION_DATA, data[tot..tot + nw]).None?
      ensures seals == old(seals) + if old(Seals(nw)) then 1 else 0
      ensures astray == (old(astray) || (failed && old(Unsent()) != []))
      ensures failed && old(Unsent()) != [] && !old(astray) ==> sealed == Path() + old(Unsent())
      ensures failed ==> ret <= 0
      ensures refusals == old(refusals) +
        if ret > 0 || failed || old(Denied(APPLICATION_DATA, addr + tot, nw)) then 0 else 1
      ensures ret <= 0 && !failed ==>
        Denied(APPLICATION_DATA, addr + tot, nw) == old(Denied(APPLICATION_DATA, addr + tot, nw))
      ensures Unsent() == if old(Seals(nw)) then [] else old(Unsent())
      ensures old(InWriteAt(start, addr, data, tot)) ==>
        InWriteAt(start, addr, data, if ret > 0 then tot + ret else tot) && (ret > 0 ==> !pending)
    {
      hide Conserved, Shape, Path, Seals, Unsent, Denied;
      ghost var honest, was := InWriteAt(start, addr, data, tot), pending;
      ret, failed := DoWrite(APPLICATION_DATA, addr + tot, data[tot..tot + nw]);
      if honest && !was {
        Joins(start, data, tot, nw);
      }
    }

    /** The seal with this number failed, of some part of the data. */
    ghost predicate SealFailed(n: nat, data: seq<byte>) {
      exists a, b :: 0 <= a < b <= |data| && sealer.seal(n, APPLICATION_DATA, data[a..b]).None?
    }

    /** The body of the next record, when so much is left. */
    function Chunk(left: nat): nat {
      if left > maxSendFragment then maxSendFragment else left
    }

    /** `ssl3_write_app_data`: called again with the same buffer after it was interrupted, it goes
        on where it stopped. Nothing is lost or reordered whatever it is called with, unless its
        first seal fails while part of a flight is unsent; then it is that part that is lost. */
    method WriteAppData(ghost start: seq<byte>, addr: nat, data: seq<byte>) returns (ret: int, ghost failed: bool)
      requires Valid() && Conserved()
      modifies this, buffer, buffer.buf
      ensures Valid() && Conserved() && handshake == old(handshake) && ret <= |data|
      ensures old(seals) <= seals && (failed ==> ret <= 0 && old(seals) < seals && SealFailed(seals - 1, data))
      ensures astray == (old(astray) || (failed && seals == old(seals) + 1 && old(Unsent()) != []))
      ensures astray && !old(astray) ==> sealed == Path() + old(Unsent())
      ensures old(InWrite(start, addr, data)) ==>
        if ret > 0 then plain == start + data[..ret] && wnum == 0 && !pending && (partialWrite || ret == |data|)
        else InWrite(start, addr, data)
      ensures buffer.buf == old(buffer.buf) || buffer.buf == null || fresh(buffer.buf)
      ensures Busy() ==> failed || (!old(pending) && buffer.buf == old(buffer.buf))
      ensures ret > 0 || failed || |data| < old(wnum) ==> refusals == old(refusals)
      ensures |data| < old(wnum) ==> ret == -1 && !failed && wnum == 0
      ensures ret <= 0 && !failed && old(wnum) <= |data| ==>
        && wnum <= |data|
        && refusals ==
           old(refusals) + if Denied(APPLICATION_DATA, addr + wnum, Chunk(|data| - wnum)) then 0 else 1
    {
      hide Conserved, Shape, Valid, Path, Unsent, Denied;
      ghost var honest := InWrite(start, addr, data);
      failed := false;
      var tot: nat := wnum;
      wnum := 0;
      if |data| < tot {
        return -1, failed;
      }
      var n: nat := |data| - tot;
      while true
        invariant Valid() && Conserved() && wnum == 0 && handshake == old(handshake) && tot + n == |data|
        invariant old(seals) <= seals && astray == old(astray)
        invariant Unsent() == if seals == old(seals) then old(Unsent()) else []
        invariant honest ==> InWriteAt(start, addr, data, tot)
        invariant buffer.buf == old(buffer.buf) || buffer.buf == null || fresh(buffer.buf)
        invariant Busy() ==> !old(pending) && buffer.buf == old(buffer.buf)
        invariant refusals == old(refusals)
        decreases n
      {
        var nw := Chunk(n);
        ret, failed := WriteChunk(start, addr, data, tot, nw);
        if ret <= 0 {
          wnum := tot;
          return;
        }
        if ret == n || partialWrite {
          ret := tot + ret;
          return;
        }
        n := n - ret;
        tot := tot + ret;
      }
    }
  }

  /** A seal that fails behind an unsent flight: the flight was sealed and is nowhere any more. */
  method LosesFlight() returns (o: Output)
    ensures o.Valid() && o.astray && o.sealed == [1] && o.Path() == []
  {
    var sealer := Sealer(0, (n: nat, kind: nat, body: seq<byte>) => if n == 0 then Some(body) else None);
    assert sealer.Valid();
    o := new Output(sealer, 1, false, false);
    var added := o.AddChangeCipherSpec();
    assert sealer.seal(0, CHANGE_CIPHER_SPEC, [1]) == Some([1]) && sealer.seal(1, APPLICATION_DATA, [7]) == None;
    assert added && o.Unsent() == [1] && o.Path() == [1];
    var ret, failed := o.DoWrite(APPLICATION_DATA, 0, [7]);
  }

  lemma Vanish(transport: seq<byte>, rest: seq<byte>)
    ensures transport + [] + [] == transport && transport + [] + rest == transport + rest
    ensures [] + rest == rest
  {
  }

  lemma Joins(start: seq<byte>, data: seq<byte>, tot: nat, nw: nat)
    requires tot + nw <= |data|
    ensures start + data[..tot] + data[tot..tot + nw] == start + data[..tot + nw]
  {
    assert data[..tot] + data[tot..tot + nw] == data[..tot + nw];
  }
}
