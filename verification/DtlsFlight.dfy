/**
 What it means for the fragments of a flight to have been sent in order: a
 cursor (message, offset) moves through the flight, each fragment starting
 exactly where the one before it ended.
 */
module DtlsFlight {
  import opened Wrappers
  import opened DtlsFragments

  // A queued message of the flight: a handshake message serialized as one
  // fragment, or a ChangeCipherSpec.
  datatype Outgoing = Outgoing(data: seq<byte>, epoch: nat, isCcs: bool) {

    // The message, when the queued bytes are one unfragmented message.
    function Whole(): (r: Option<Fragment>)
      ensures r.Some? ==> r.value.WireValid() && r.value.hdr.fragOff == 0 && r.value.hdr.msgLen == |r.value.body|
    {
      var parsed := Parse(data);
      if parsed.None? then None
      else
        var (f, rest) := parsed.value;
        if f.hdr.fragOff == 0 && f.hdr.msgLen == |f.body| && rest == [] then Some(f) else None
    }

    // The bytes that have to reach the peer: none for a ChangeCipherSpec.
    function Body(): seq<byte> {
      if isCcs || Whole().None? then [] else Whole().value.body
    }
  }

  datatype Chunk =
    | CcsChunk
    | FragmentChunk(fragment: Fragment)
  {
    function Bytes(): seq<byte> {
      if CcsChunk? then [] else fragment.body
    }
  }

  datatype Cursor = Cursor(written: nat, offset: nat)

  const START := Cursor(0, 0)

  // Where the cursor stands after `c` has been sent, if `c` is the piece that
  // comes next.
  function Advance(msgs: seq<Outgoing>, cur: Cursor, c: Chunk): Option<Cursor> {
    if cur.written >= |msgs| then None
    else
      var m := msgs[cur.written];
      match c
      case CcsChunk =>
        if m.isCcs && cur.offset == 0 then Some(Cursor(cur.written + 1, 0)) else None
      case FragmentChunk(f) =>
        if m.isCcs || m.Whole().None? then None
        else
          var whole := m.Whole().value;
          var end := cur.offset + |f.body|;
          if && f.hdr == whole.hdr.(fragOff := cur.offset, fragLen := |f.body|)
             && end <= |whole.body|
             && f.body == whole.body[cur.offset..end]
             && (f.body != [] || whole.body == [])
          then Some(if end == |whole.body| then Cursor(cur.written + 1, 0) else Cursor(cur.written, end))
          else None
  }

  function AdvanceAll(msgs: seq<Outgoing>, cur: Cursor, cs: seq<Chunk>): Option<Cursor>
    decreases |cs|
  {
    if cs == [] then Some(cur)
    else
      var next := Advance(msgs, cur, cs[0]);
      if next.None? then None else AdvanceAll(msgs, next.value, cs[1..])
  }

  lemma {:induction false} AdvanceConcat(msgs: seq<Outgoing>, cur: Cursor, cs: seq<Chunk>, ds: seq<Chunk>)
    requires AdvanceAll(msgs, cur, cs).Some?
    ensures AdvanceAll(msgs, cur, cs + ds) == AdvanceAll(msgs, AdvanceAll(msgs, cur, cs).value, ds)
    decreases |cs|
  {
    if cs == [] {
      assert cs + ds == ds;
    } else {
      assert (cs + ds)[1..] == cs[1..] + ds;
      AdvanceConcat(msgs, Advance(msgs, cur, cs[0]).value, cs[1..], ds);
    }
  }

  // Messages queued behind the cursor do not disturb what has been sent.
  lemma {:induction false} AdvanceGrows(msgs: seq<Outgoing>, m: Outgoing, cur: Cursor, cs: seq<Chunk>)
    requires AdvanceAll(msgs, cur, cs).Some?
    ensures AdvanceAll(msgs + [m], cur, cs) == AdvanceAll(msgs, cur, cs)
    decreases |cs|
  {
    if cs != [] {
      AdvanceGrows(msgs, m, Advance(msgs, cur, cs[0]).value, cs[1..]);
    }
  }

  // All the body bytes of a flight, in order.
  function FlightBytes(msgs: seq<Outgoing>): seq<byte> {
    if msgs == [] then [] else msgs[0].Body() + FlightBytes(msgs[1..])
  }

  // The flight's bytes from a cursor on.
  function Remaining(msgs: seq<Outgoing>, cur: Cursor): seq<byte>
    requires CursorIn(msgs, cur)
  {
    if cur.written == |msgs| then []
    else msgs[cur.written].Body()[cur.offset..] + FlightBytes(msgs[cur.written + 1..])
  }

  predicate CursorIn(msgs: seq<Outgoing>, cur: Cursor) {
    && cur.written <= |msgs|
    && (cur.offset == 0 || (cur.written < |msgs| && cur.offset < |msgs[cur.written].Body()|))
  }

  function ChunkBytes(cs: seq<Chunk>): seq<byte> {
    if cs == [] then [] else cs[0].Bytes() + ChunkBytes(cs[1..])
  }

  lemma RemainingFrom(msgs: seq<Outgoing>, i: nat)
    requires i <= |msgs|
    ensures Remaining(msgs, Cursor(i, 0)) == FlightBytes(msgs[i..])
  {
    hide Outgoing.Body;
    if i < |msgs| {
      assert msgs[i..][1..] == msgs[i + 1..];
    }
  }

  lemma AdvanceTiles(msgs: seq<Outgoing>, cur: Cursor, c: Chunk)
    requires CursorIn(msgs, cur) && Advance(msgs, cur, c).Some?
    ensures var next := Advance(msgs, cur, c).value;
            CursorIn(msgs, next) && Remaining(msgs, cur) == c.Bytes() + Remaining(msgs, next)
  {
    hide Outgoing.Whole, FlightBytes;
    var next := Advance(msgs, cur, c).value;
    var body := msgs[cur.written].Body();
    var later := FlightBytes(msgs[cur.written + 1..]);
    if next.written > cur.written {
      assert body[cur.offset..] == c.Bytes();
      RemainingFrom(msgs, next.written);
    } else {
      assert body[cur.offset..] == c.Bytes() + body[next.offset..];
      assert c.Bytes() + body[next.offset..] + later == c.Bytes() + (body[next.offset..] + later);
    }
  }

  // The fragments sent tile the flight: concatenated, and followed by what is
  // left to send, they are the flight's bytes, with no gap and no overlap.
  lemma {:induction false} FragmentsTile(msgs: seq<Outgoing>, cur: Cursor, cs: seq<Chunk>)
    requires CursorIn(msgs, cur) && AdvanceAll(msgs, cur, cs).Some?
    ensures var end := AdvanceAll(msgs, cur, cs).value;
            CursorIn(msgs, end) && Remaining(msgs, cur) == ChunkBytes(cs) + Remaining(msgs, end)
    decreases |cs|
  {
    hide Advance, Remaining, CursorIn, Chunk.Bytes;
    if cs == [] {
      assert [] + Remaining(msgs, cur) == Remaining(msgs, cur);
    } else {
      AdvanceTiles(msgs, cur, cs[0]);
      FragmentsTile(msgs, Advance(msgs, cur, cs[0]).value, cs[1..]);
      var rest := Remaining(msgs, AdvanceAll(msgs, cur, cs).value);
      var head, tail := cs[0].Bytes(), ChunkBytes(cs[1..]);
      assert head + (tail + rest) == (head + tail) + rest;
    }
  }

  // A chunk that carries byte `k` of message `i`, or that is the one chunk of
  // message `i` if the message is empty.
  predicate Carries(msgs: seq<Outgoing>, i: nat, k: nat, c: Chunk)
    requires i < |msgs| && msgs[i].Whole().Some?
  {
    var whole := msgs[i].Whole().value;
    && c.FragmentChunk?
    && c.fragment.hdr == whole.hdr.(fragOff := c.fragment.hdr.fragOff, fragLen := |c.fragment.body|)
    && c.fragment.hdr.fragOff + |c.fragment.body| <= |whole.body|
    && c.fragment.body == whole.body[c.fragment.hdr.fragOff..c.fragment.hdr.fragOff + |c.fragment.body|]
    && (whole.body == [] || c.fragment.hdr.fragOff <= k < c.fragment.hdr.fragOff + |c.fragment.body|)
  }

  // The chunk sent at the cursor carries the bytes of the current message that
  // the cursor passes.
  lemma ChunkCarries(msgs: seq<Outgoing>, cur: Cursor, c: Chunk, k: nat)
    requires CursorIn(msgs, cur) && Advance(msgs, cur, c).Some? && cur.written < |msgs|
    requires !msgs[cur.written].isCcs && msgs[cur.written].Whole().Some? && cur.offset <= k
    requires k < |msgs[cur.written].Body()| || msgs[cur.written].Body() == []
    ensures var next := Advance(msgs, cur, c).value;
            next.written > cur.written || k < next.offset ==> Carries(msgs, cur.written, k, c)
  {
    hide Outgoing.Whole, Remaining, ChunkBytes;
  }

  lemma AdvanceOne(msgs: seq<Outgoing>, cur: Cursor, c: Chunk)
    requires CursorIn(msgs, cur) && Advance(msgs, cur, c).Some?
    ensures var next := Advance(msgs, cur, c).value;
            next.written == cur.written || next == Cursor(cur.written + 1, 0)
  {
    hide Outgoing.Whole, Outgoing.Body;
  }

  // Once the cursor has gone past a message, every byte of it has been sent.
  lemma {:induction false} EveryByteSent(msgs: seq<Outgoing>, cur: Cursor, cs: seq<Chunk>, i: nat, k: nat)
    requires CursorIn(msgs, cur) && AdvanceAll(msgs, cur, cs).Some?
    requires cur.written <= i < AdvanceAll(msgs, cur, cs).value.written
    requires i < |msgs| && !msgs[i].isCcs && msgs[i].Whole().Some?
    requires i == cur.written ==> cur.offset <= k
    requires k < |msgs[i].Body()| || msgs[i].Body() == []
    ensures exists j :: 0 <= j < |cs| && Carries(msgs, i, k, cs[j])
    decreases |cs|
  {
    hide Outgoing.Whole, Outgoing.Body, Remaining, ChunkBytes, Carries, Advance, CursorIn;
    var next := Advance(msgs, cur, cs[0]).value;
    AdvanceOne(msgs, cur, cs[0]);
    if i == cur.written && (next.written > i || k < next.offset) {
      ChunkCarries(msgs, cur, cs[0], k);
    } else {
      AdvanceTiles(msgs, cur, cs[0]);
      EveryByteSent(msgs, next, cs[1..], i, k);
      var j :| 0 <= j < |cs[1..]| && Carries(msgs, i, k, cs[1..][j]);
      assert Carries(msgs, i, k, cs[j + 1]);
    }
  }
}
