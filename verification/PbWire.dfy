/** The wire level of nanopb: varints, zigzag, fixed-width integers, tags, skipping
    (nanopb/pb_encode.c:494-598, nanopb/pb_decode.c:173-287, 1118-1163). */
module PbWire {
  import opened Wrappers

  const W32 := 0x1_0000_0000
  const W64 := 0x1_0000_0000_0000_0000

  /** Bytes a 32-bit and a 64-bit reader take before reporting an overflow. */
  const LEN32 := 5
  const LEN64 := 10

  // ----- Writing ---------------------------------------------------------

  function Varint(n: nat): (b: seq<byte>)
    ensures 0 < |b|
    decreases n
  {
    if n < 128 then [n] else [128 + n % 128] + Varint(n / 128)
  }

  /** The cast of a signed value to `uint64_t`. */
  function Unsigned64(v: int): (u: int)
    requires -0x8000_0000_0000_0000 <= v < W64
    ensures 0 <= u < W64
  {
    if v < 0 then v + W64 else v
  }

  function ZigZag(v: int): (z: int)
    requires -0x8000_0000_0000_0000 <= v < 0x8000_0000_0000_0000
    ensures 0 <= z < W64
  {
    if v < 0 then W64 - 1 - Unsigned64(v) * 2 % W64 else v * 2 % W64
  }

  function LittleEndian(v: nat, n: nat): (b: seq<byte>)
    ensures |b| == n
  {
    if n == 0 then [] else [v % 256] + LittleEndian(v / 256, n - 1)
  }

  // ----- Reading ---------------------------------------------------------

  datatype Scan = Scan(value: nat, rest: seq<byte>) | Broken(rest: seq<byte>)

  /** Seven-bit groups, least significant first, until a byte below 128 or `limit` bytes. */
  function Groups(b: seq<byte>, limit: nat): (s: Scan)
    ensures |s.rest| <= |b|
    ensures s.Scan? ==> |s.rest| < |b|
    ensures |b| == 0 ==> s.Broken?
    decreases limit
  {
    if limit == 0 || b == [] then Broken(b)
    else if b[0] < 128 then Scan(b[0], b[1..])
    else
      match Groups(b[1..], limit - 1)
      case Broken(rest) => Broken(rest)
      case Scan(v, rest) => Scan(b[0] - 128 + 128 * v, rest)
  }

  /** Bits shifted out at the top of the destination are lost. */
  function Scan32(b: seq<byte>): (s: Scan)
    ensures |s.rest| <= |b|
    ensures s.Scan? ==> s.value < W32 && |s.rest| < |b|
  {
    match Groups(b, LEN32)
    case Broken(rest) => Broken(rest)
    case Scan(v, rest) => Scan(v % W32, rest)
  }

  function Scan64(b: seq<byte>): (s: Scan)
    ensures |s.rest| <= |b|
    ensures s.Scan? ==> s.value < W64 && |s.rest| < |b|
  {
    match Groups(b, LEN64)
    case Broken(rest) => Broken(rest)
    case Scan(v, rest) => Scan(v % W64, rest)
  }

  /** The cast of an unsigned word of `width` values to the signed type of that width. */
  function Signed(u: nat, width: nat): int
  {
    if u < width / 2 then u else u - width
  }

  function UnZigZag(u: nat): (v: int)
    requires u < W64
    ensures -0x8000_0000_0000_0000 <= v < 0x8000_0000_0000_0000
  {
    if u % 2 == 1 then Signed(W64 - 1 - u / 2, W64) else u / 2
  }

  function FromLittleEndian(b: seq<byte>): (v: nat)
  {
    if b == [] then 0 else b[0] + 256 * FromLittleEndian(b[1..])
  }

  function Take(b: seq<byte>, n: nat): (r: Option<(seq<byte>, seq<byte>)>)
    ensures r.Some? ==> |r.value.1| <= |b| && |r.value.0| == n
  {
    if |b| < n then None else Some((b[..n], b[n..]))
  }

  datatype TagRead =
    | Tag(tag: nat, wire: nat, rest: seq<byte>)
    | End(rest: seq<byte>)
    | BadTag

  /** A zero tag ends the message, and so does a tag that the end of the input cuts off. */
  function ReadTag(b: seq<byte>): (t: TagRead)
    ensures t.Tag? ==> |t.rest| < |b|
  {
    match Scan32(b)
    case Broken(rest) => if rest == [] then End(rest) else BadTag
    case Scan(v, rest) => if v == 0 then End(rest) else Tag(v / 8, v % 8, rest)
  }

  function SkipVarint(b: seq<byte>): (r: Option<seq<byte>>)
    ensures r.Some? ==> |r.value| < |b|
  {
    if b == [] then None else if b[0] < 128 then Some(b[1..]) else SkipVarint(b[1..])
  }

  /** A length-delimited payload and what follows it. */
  function Delimited(b: seq<byte>): (r: Option<(seq<byte>, seq<byte>)>)
    ensures r.Some? ==> |r.value.0| < |b| && |r.value.1| < |b|
  {
    match Scan32(b)
    case Broken(_) => None
    case Scan(size, rest) => Take(rest, size)
  }

  const VARINT := 0
  const BITS64 := 1
  const DELIMITED := 2
  const BITS32 := 5

  function Skip(wire: nat, b: seq<byte>): (r: Option<seq<byte>>)
    ensures r.Some? ==> |r.value| <= |b|
  {
    if wire == VARINT then SkipVarint(b)
    else if wire == BITS64 then if |b| < 8 then None else Some(b[8..])
    else if wire == DELIMITED then
      match Delimited(b) { case None => None case Some((_, rest)) => Some(rest) }
    else if wire == BITS32 then if |b| < 4 then None else Some(b[4..])
    else None
  }

  // ----- What is written is what is read ---------------------------------

  function Pow128(k: nat): (p: nat)
    ensures p > 0
  {
    if k == 0 then 1 else 128 * Pow128(k - 1)
  }

  lemma {:induction false} VarintLength(n: nat, k: nat)
    requires 0 < k && n < Pow128(k)
    ensures |Varint(n)| <= k
  {
    if n >= 128 {
      VarintLength(n / 128, k - 1);
    }
  }

  lemma {:induction false} GroupsOfVarint(n: nat, limit: nat, rest: seq<byte>)
    requires |Varint(n)| <= limit
    ensures Groups(Varint(n) + rest, limit) == Scan(n, rest)
  {
    var b := Varint(n) + rest;
    if n < 128 {
      assert b[1..] == rest;
    } else {
      assert b[1..] == Varint(n / 128) + rest;
      GroupsOfVarint(n / 128, limit - 1, rest);
      assert n == 128 * (n / 128) + n % 128;
    }
  }

  lemma ScanVarint32(n: nat, rest: seq<byte>)
    requires n < W32
    ensures |Varint(n)| <= LEN32
    ensures Scan32(Varint(n) + rest) == Scan(n, rest)
  {
    Pow128Values();
    VarintLength(n, LEN32);
    GroupsOfVarint(n, LEN32, rest);
  }

  lemma ScanVarint64(n: nat, rest: seq<byte>)
    requires n < W64
    ensures |Varint(n)| <= LEN64
    ensures Scan64(Varint(n) + rest) == Scan(n, rest)
  {
    Pow128Values();
    VarintLength(n, LEN64);
    GroupsOfVarint(n, LEN64, rest);
  }

  lemma Pow128Values()
    ensures Pow128(LEN32) >= W32 && Pow128(LEN64) >= W64
  {
    assert Pow128(2) == 0x4000;
    assert Pow128(4) == 128 * (128 * Pow128(2));
    assert Pow128(6) == 128 * (128 * Pow128(4));
    assert Pow128(8) == 128 * (128 * Pow128(6));
    assert Pow128(10) == 128 * (128 * Pow128(8));
  }

  lemma UnZigZagZigZag(v: int)
    requires -0x8000_0000_0000_0000 <= v < 0x8000_0000_0000_0000
    ensures UnZigZag(ZigZag(v)) == v
  {
    if v < 0 {
      assert Unsigned64(v) * 2 == W64 + (2 * v + W64);
      assert Unsigned64(v) * 2 % W64 == 2 * v + W64;
    }
  }

  lemma {:induction false} FromToLittleEndian(v: nat, n: nat)
    requires v < Pow256(n)
    ensures FromLittleEndian(LittleEndian(v, n)) == v
  {
    if n > 0 {
      FromToLittleEndian(v / 256, n - 1);
      assert LittleEndian(v, n)[1..] == LittleEndian(v / 256, n - 1);
    }
  }

  function Pow256(k: nat): nat {
    if k == 0 then 1 else 256 * Pow256(k - 1)
  }

  lemma Pow256Values()
    ensures Pow256(4) == W32 && Pow256(8) == W64
  {
    assert Pow256(4) == 256 * (256 * (256 * (256 * Pow256(0))));
    assert Pow256(8) == 256 * (256 * (256 * (256 * Pow256(4))));
  }

  lemma ReadTagOfTag(tag: nat, wire: nat, rest: seq<byte>)
    requires 0 < tag < 0x2000_0000 && wire < 8
    ensures ReadTag(Varint(tag * 8 + wire) + rest) == Tag(tag, wire, rest)
  {
    ScanVarint32(tag * 8 + wire, rest);
  }

  lemma {:induction false} SkipVarintOfVarint(n: nat, rest: seq<byte>)
    ensures SkipVarint(Varint(n) + rest) == Some(rest)
  {
    var b := Varint(n) + rest;
    if n < 128 {
      assert b[1..] == rest;
    } else {
      assert b[1..] == Varint(n / 128) + rest;
      SkipVarintOfVarint(n / 128, rest);
    }
  }

  // ----- Reading does not look past what it takes --------------------------

  lemma {:induction false} GroupsExtend(b: seq<byte>, limit: nat, tail: seq<byte>)
    requires Groups(b, limit).Scan?
    ensures Groups(b + tail, limit) == Scan(Groups(b, limit).value, Groups(b, limit).rest + tail)
  {
    assert (b + tail)[1..] == b[1..] + tail;
    if b[0] >= 128 {
      GroupsExtend(b[1..], limit - 1, tail);
    }
  }

  lemma {:induction false} SkipVarintExtend(b: seq<byte>, tail: seq<byte>)
    requires SkipVarint(b).Some?
    ensures SkipVarint(b + tail) == Some(SkipVarint(b).value + tail)
  {
    assert (b + tail)[1..] == b[1..] + tail;
    if b[0] >= 128 {
      SkipVarintExtend(b[1..], tail);
    }
  }

  lemma TakeExtend(b: seq<byte>, n: nat, tail: seq<byte>)
    requires n <= |b|
    ensures (b + tail)[..n] == b[..n] && (b + tail)[n..] == b[n..] + tail
  {
  }

  lemma DelimitedExtend(b: seq<byte>, tail: seq<byte>)
    requires Delimited(b).Some?
    ensures Delimited(b + tail) == Some((Delimited(b).value.0, Delimited(b).value.1 + tail))
  {
    GroupsExtend(b, LEN32, tail);
    var s := Scan32(b);
    TakeExtend(s.rest, s.value, tail);
  }

  lemma SkipExtend(wire: nat, b: seq<byte>, tail: seq<byte>)
    requires Skip(wire, b).Some?
    ensures Skip(wire, b + tail) == Some(Skip(wire, b).value + tail)
  {
    if wire == VARINT {
      SkipVarintExtend(b, tail);
    } else if wire == DELIMITED {
      DelimitedExtend(b, tail);
    } else {
      TakeExtend(b, if wire == BITS64 then 8 else 4, tail);
    }
  }

  lemma ReadTagExtend(b: seq<byte>, tail: seq<byte>)
    requires ReadTag(b).Tag?
    ensures ReadTag(b + tail) == ReadTag(b).(rest := ReadTag(b).rest + tail)
  {
    GroupsExtend(b, LEN32, tail);
  }
}
