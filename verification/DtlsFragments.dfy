/**
 The wire form of DTLS handshake fragments (section 4.2.2 of RFC 6347): a
 12-byte header followed by the fragment body.  A record carries any number of
 fragments, one after the other.
 */
module DtlsFragments {
  import opened Wrappers

  const HEADER_LENGTH := 12

  datatype Header = Header(typ: byte, msgLen: nat, seqNum: nat, fragOff: nat, fragLen: nat) {
    // The values the header's integer fields can hold.
    predicate Fits() {
      msgLen < 0x100_0000 && seqNum < 0x1_0000 && fragOff < 0x100_0000 && fragLen < 0x100_0000
    }
  }

  datatype Fragment = Fragment(hdr: Header, body: seq<byte>) {
    predicate WireValid() {
      hdr.Fits() && hdr.fragLen == |body|
    }
  }

  // A whole handshake message.
  datatype Message = Message(typ: byte, body: seq<byte>)

  function U16(n: nat): (b: seq<byte>)
    requires n < 0x1_0000
    ensures |b| == 2 && GetU16(b, 0) == n
  {
    [n / 0x100, n % 0x100]
  }

  function U24(n: nat): (b: seq<byte>)
    requires n < 0x100_0000
    ensures |b| == 3 && GetU24(b, 0) == n
  {
    [n / 0x1_0000, n / 0x100 % 0x100, n % 0x100]
  }

  function GetU16(b: seq<byte>, at: nat): (n: nat)
    requires at + 2 <= |b|
    ensures n < 0x1_0000
  {
    b[at] as int * 0x100 + b[at + 1]
  }

  function GetU24(b: seq<byte>, at: nat): (n: nat)
    requires at + 3 <= |b|
    ensures n < 0x100_0000
  {
    b[at] as int * 0x1_0000 + b[at + 1] as int * 0x100 + b[at + 2]
  }

  function HeaderBytes(h: Header): (b: seq<byte>)
    requires h.Fits()
    ensures |b| == HEADER_LENGTH
  {
    [h.typ] + U24(h.msgLen) + U16(h.seqNum) + U24(h.fragOff) + U24(h.fragLen)
  }

  function Serialize(f: Fragment): (b: seq<byte>)
    requires f.WireValid()
    ensures |b| == HEADER_LENGTH + |f.body|
  {
    HeaderBytes(f.hdr) + f.body
  }

  function SerializeAll(fs: seq<Fragment>): seq<byte>
    requires forall f | f in fs :: f.WireValid()
  {
    if fs == [] then [] else Serialize(fs[0]) + SerializeAll(fs[1..])
  }

  // `dtls1_parse_fragment`: the fragment at the front of `b` and what follows it.
  function Parse(b: seq<byte>): (r: Option<(Fragment, seq<byte>)>)
    ensures r.Some? ==> r.value.0.WireValid() && |r.value.1| < |b|
    ensures r.Some? ==> b == Serialize(r.value.0) + r.value.1
  {
    if |b| < HEADER_LENGTH then None
    else
      var h := Header(b[0], GetU24(b, 1), GetU16(b, 4), GetU24(b, 6), GetU24(b, 9));
      if |b| - HEADER_LENGTH < h.fragLen then None
      else
        var f := Fragment(h, b[HEADER_LENGTH..HEADER_LENGTH + h.fragLen]);
        var rest := b[HEADER_LENGTH + h.fragLen..];
        HeaderOfBytes(b);
        assert b == Serialize(f) + rest;
        Some((f, rest))
  }

  lemma HeaderOfBytes(b: seq<byte>)
    requires |b| >= HEADER_LENGTH
    ensures HeaderBytes(Header(b[0], GetU24(b, 1), GetU16(b, 4), GetU24(b, 6), GetU24(b, 9))) == b[..HEADER_LENGTH]
  {
    U24OfBytes(b, 1);
    U24OfBytes(b, 6);
    U24OfBytes(b, 9);
  }

  lemma U24OfBytes(b: seq<byte>, at: nat)
    requires at + 3 <= |b|
    ensures U24(GetU24(b, at)) == b[at..at + 3]
  {
  }

  // Parsing undoes serializing, whatever comes after the fragment.
  lemma ParseSerialize(f: Fragment, rest: seq<byte>)
    requires f.WireValid()
    ensures Parse(Serialize(f) + rest) == Some((f, rest))
  {
    var b := Serialize(f) + rest;
    var h := f.hdr;
    assert b[1..4] == U24(h.msgLen) && b[4..6] == U16(h.seqNum);
    assert b[6..9] == U24(h.fragOff) && b[9..12] == U24(h.fragLen);
    assert b[HEADER_LENGTH..HEADER_LENGTH + h.fragLen] == f.body;
    assert b[HEADER_LENGTH + h.fragLen..] == rest;
  }
}
