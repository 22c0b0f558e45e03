/**
 The bitmask that records which bytes of a DTLS handshake message have arrived
 (`dtls1_hm_fragment_mark`).  One bit stands for one byte of the message; the
 mask is specified by the set of byte offsets it records.
 */
module ReassemblyMask {

  predicate Bit(b: bv8, j: nat)
    requires j < 8
  {
    (b >> j) & 1 == 1
  }

  // A byte with bits `start`, inclusive, to `end`, exclusive, set.
  function BitRange(start: nat, end: nat): (b: bv8)
    requires start <= 8 && end <= 8
    ensures forall j: nat | j < 8 :: Bit(b, j) <==> start <= j < end
  {
    var b := !((1 << start) - 1) & ((1 << end) - 1);
    BitRangeBits(start, end);
    b
  }

  lemma BitRangeBits(start: nat, end: nat)
    requires start <= 8 && end <= 8
    ensures var b: bv8 := !((1 << start) - 1) & ((1 << end) - 1);
            forall j: nat | j < 8 :: Bit(b, j) <==> start <= j < end
  {
    var b: bv8 := !((1 << start) - 1) & ((1 << end) - 1);
    forall j: nat | j < 8
      ensures Bit(b, j) <==> start <= j < end
    {
    }
  }

  lemma OrBits(a: bv8, b: bv8, j: nat)
    requires j < 8
    ensures Bit(a | b, j) <==> Bit(a, j) || Bit(b, j)
  {
  }

  // Two bytes with the same eight bits are the same byte.
  lemma SameBits(a: bv8, b: bv8)
    requires forall j: nat | j < 8 :: Bit(a, j) <==> Bit(b, j)
    ensures a == b
  {
    assert (Bit(a, 0) <==> Bit(b, 0)) && (Bit(a, 1) <==> Bit(b, 1)) && (Bit(a, 2) <==> Bit(b, 2));
    assert (Bit(a, 3) <==> Bit(b, 3)) && (Bit(a, 4) <==> Bit(b, 4)) && (Bit(a, 5) <==> Bit(b, 5));
    assert (Bit(a, 6) <==> Bit(b, 6)) && (Bit(a, 7) <==> Bit(b, 7));
  }

  predicate Marked(mask: seq<bv8>, k: nat)
    requires k < 8 * |mask|
  {
    Bit(mask[k / 8], k % 8)
  }

  // `mask` records exactly the offsets `got` of a message of `msgLen` bytes:
  // in particular no bit past the end of the message is set.
  ghost predicate Records(mask: seq<bv8>, msgLen: nat, got: set<nat>) {
    && |mask| == (msgLen + 7) / 8
    && (forall k | k in got :: k < msgLen)
    && (forall k: nat | k < 8 * |mask| :: Marked(mask, k) <==> k in got)
  }

  predicate Within(start: nat, k: nat, end: nat) {
    start <= k < end
  }

  ghost function Range(start: nat, end: nat): (s: set<nat>)
    ensures forall k: nat {:trigger k in s} :: k in s <==> start <= k < end
  {
    var s := set k: nat | start <= k < end && Within(start, k, end);
    assert forall k: nat {:trigger k in s} :: k in s <==> Within(start, k, end);
    s
  }

  ghost predicate Covers(got: set<nat>, msgLen: nat) {
    forall k: nat | k < msgLen :: k in got
  }

  lemma BitAt(i: nat, j: nat)
    requires j < 8
    ensures (8 * i + j) / 8 == i && (8 * i + j) % 8 == j
  {
  }

  lemma MarkedAt(mask: seq<bv8>, i: nat, j: nat)
    requires i < |mask| && j < 8
    ensures Marked(mask, 8 * i + j) == Bit(mask[i], j)
  {
    hide Bit;
    BitAt(i, j);
  }

  // Setting bits lo..hi of byte i of a mask adds offsets 8i+lo .. 8i+hi.
  lemma MarkByte(mask: seq<bv8>, mask': seq<bv8>, i: nat, lo: nat, hi: nat)
    requires i < |mask| && lo <= 8 && hi <= 8
    requires mask' == mask[i := mask[i] | BitRange(lo, hi)]
    ensures forall k: nat | k < 8 * |mask| ::
              Marked(mask', k) <==> Marked(mask, k) || 8 * i + lo <= k < 8 * i + hi
  {
    hide Bit, BitRange, Marked;
    var range := BitRange(lo, hi);
    forall k: nat | k < 8 * |mask|
      ensures Marked(mask', k) <==> Marked(mask, k) || 8 * i + lo <= k < 8 * i + hi
    {
      var q, r := k / 8, k % 8;
      assert k == 8 * q + r;
      MarkedAt(mask, q, r);
      MarkedAt(mask', q, r);
      OrBits(mask[i], range, r);
      assert Bit(range, r) <==> lo <= r < hi;
    }
  }

  /** Sets the bits of bytes `start`, inclusive, to `end`, exclusive. */
  method SetRange(mask: array<bv8>, start: nat, end: nat)
    requires start < end <= 8 * mask.Length
    modifies mask
    ensures forall k: nat | k < 8 * mask.Length ::
              Marked(mask[..], k) <==> Marked(old(mask[..]), k) || start <= k < end
  {
    ghost var m0 := mask[..];
    if start / 8 == end / 8 {
      mask[start / 8] := mask[start / 8] | BitRange(start % 8, end % 8);
      MarkByte(m0, mask[..], start / 8, start % 8, end % 8);
    } else {
      mask[start / 8] := mask[start / 8] | BitRange(start % 8, 8);
      MarkByte(m0, mask[..], start / 8, start % 8, 8);
      var i := start / 8 + 1;
      while i < end / 8
        invariant start / 8 < i <= end / 8
        invariant forall k: nat | k < 8 * mask.Length ::
                    Marked(mask[..], k) <==> Marked(m0, k) || start <= k < 8 * i
      {
        ghost var m1 := mask[..];
        mask[i] := 0xff;
        assert m1[i] | BitRange(0, 8) == 0xff by { OrAll(m1[i]); }
        MarkByte(m1, mask[..], i, 0, 8);
        i := i + 1;
      }
      if end % 8 != 0 {
        ghost var m2 := mask[..];
        mask[end / 8] := mask[end / 8] | BitRange(0, end % 8);
        MarkByte(m2, mask[..], end / 8, 0, end % 8);
      }
    }
  }

  lemma OrAll(b: bv8)
    ensures b | BitRange(0, 8) == 0xff
  {
    SameBits(BitRange(0, 8), 0xff);
  }

  // Bit `j` of byte `i` stands for a recorded offset.
  ghost predicate Has(got: set<nat>, i: nat, j: nat) {
    8 * i + j in got
  }

  // What a mask says about byte `i` of it.
  lemma ByteSays(mask: seq<bv8>, msgLen: nat, got: set<nat>, i: nat)
    requires Records(mask, msgLen, got) && i < |mask|
    ensures forall j: nat | j < 8 :: Bit(mask[i], j) <==> Has(got, i, j)
    ensures forall j: nat | j < 8 && 8 * i + j >= msgLen :: !Bit(mask[i], j)
  {
    hide Bit, Marked;
    forall j: nat | j < 8
      ensures Bit(mask[i], j) <==> Has(got, i, j)
    {
      MarkedAt(mask, i, j);
    }
  }

  // A byte with the first `n` bits to be set is complete exactly if it is the full range.
  lemma FullByte(b: bv8, n: nat)
    requires n <= 8 && forall j: nat | n <= j < 8 :: !Bit(b, j)
    ensures b == BitRange(0, n) <==> forall j: nat | j < n :: Bit(b, j)
  {
    hide Bit, BitRange;
    if b != BitRange(0, n) {
      NotAll(b, n);
    }
  }

  lemma AllOnes()
    ensures BitRange(0, 8) == 0xff
  {
    SameBits(BitRange(0, 8), 0xff);
  }

  /** True exactly when every byte of the message has been marked. */
  method IsComplete(mask: array<bv8>, msgLen: nat, ghost got: set<nat>) returns (complete: bool)
    requires Records(mask[..], msgLen, got)
    ensures complete <==> Covers(got, msgLen)
  {
    hide Bit, Marked, BitRange;
    AllOnes();
    var i := 0;
    while i < msgLen / 8
      invariant 0 <= i <= msgLen / 8
      invariant forall k: nat | k < 8 * i :: k in got
    {
      ByteSays(mask[..], msgLen, got, i);
      FullByte(mask[i], 8);
      if mask[i] != 0xff {
        var j: nat :| j < 8 && !Bit(mask[i], j);
        assert !Has(got, i, j);
        return false;
      }
      ByteFull(got, i, 8);
      i := i + 1;
    }
    if msgLen % 8 != 0 {
      ByteSays(mask[..], msgLen, got, i);
      FullByte(mask[i], msgLen % 8);
      if mask[msgLen / 8] != BitRange(0, msgLen % 8) {
        var j: nat :| j < msgLen % 8 && !Bit(mask[i], j);
        assert !Has(got, i, j);
        return false;
      }
      ByteFull(got, i, msgLen % 8);
    }
    return true;
  }

  lemma ByteFull(got: set<nat>, i: nat, n: nat)
    requires forall j: nat | j < n :: Has(got, i, j)
    ensures forall k: nat | 8 * i <= k < 8 * i + n :: k in got
  {
    forall k: nat | 8 * i <= k < 8 * i + n
      ensures k in got
    {
      assert Has(got, i, k - 8 * i);
    }
  }

  // A byte whose bits from `n` on are clear, and that is not the full range,
  // misses one of its first `n` bits.
  lemma NotAll(b: bv8, n: nat)
    requires n <= 8 && b != BitRange(0, n)
    requires forall j: nat | n <= j < 8 :: !Bit(b, j)
    ensures exists j: nat :: j < n && !Bit(b, j)
  {
    hide Bit, BitRange;
    if forall j: nat | j < n :: Bit(b, j) {
      SameBits(b, BitRange(0, n));
    }
  }
}
