/** The input stream and the decoder that reads from it (nanopb/pb_decode.c:76-350). */
module PbInput {
  import opened Wrappers
  import opened PbWire

  // ----- Varint arithmetic ---------------------------------------------------------

  /** `group << bitpos`, where `weight` is `1 << bitpos`. */
  function Shift(group: nat, weight: nat): nat {
    group * weight
  }

  /** What `Groups` gives when `raw` stands for the groups read before, of total weight `w`. */
  function Onto(raw: nat, w: nat, s: Scan): Scan {
    match s case Broken(rest) => Broken(rest) case Scan(v, rest) => Scan(raw + Shift(v, w), rest)
  }

  lemma OntoNext(raw: nat, w: nat, b: seq<byte>, limit: nat)
    requires 0 < limit && b != []
    ensures b[0] >= 128 ==>
      Onto(raw, w, Groups(b, limit)) == Onto(raw + Shift(b[0] % 128, w), w * 128, Groups(b[1..], limit - 1))
    ensures b[0] < 128 ==> Onto(raw, w, Groups(b, limit)) == Scan(raw + Shift(b[0] % 128, w), b[1..])
  {
    if b[0] >= 128 {
      var s := Groups(b[1..], limit - 1);
      if s.Scan? {
        Distribute(w, b[0] - 128, s.value);
      }
    }
  }

  lemma Distribute(w: nat, x: nat, v: nat)
    ensures (x + 128 * v) * w == x * w + v * (w * 128)
  {
  }

  lemma ShiftNothing(group: nat)
    ensures Shift(group, 1) == group
  {
  }

  lemma ScansOf(b: seq<byte>)
    ensures Scan32(b) == match Groups(b, LEN32) { case Broken(r) => Broken(r) case Scan(v, r) => Scan(v % W32, r) }
    ensures Scan64(b) == match Groups(b, LEN64) { case Broken(r) => Broken(r) case Scan(v, r) => Scan(v % W64, r) }
    ensures b == [] ==> Groups(b, LEN32) == Broken(b)
  {
  }

  lemma OntoStop(raw: nat, w: nat, b: seq<byte>, limit: nat)
    requires limit == 0 || b == []
    ensures Onto(raw, w, Groups(b, limit)) == Broken(b)
  {
  }

  lemma OntoNothing(s: Scan)
    ensures Onto(0, 1, s) == s
  {
  }

  /** Truncating at every step is truncating at the end. */
  lemma Truncate(raw: nat, x: nat, m: nat)
    requires m == W32 || m == W64
    ensures (raw % m + x) % m == (raw + x) % m
  {
    assert raw == m * (raw / m) + raw % m;
  }

  class IStream {
    const source: array<byte>
    var state: nat
    var left: nat

    ghost predicate Valid()
      reads this
    {
      state + left <= source.Length
    }

    ghost function End(): nat
      reads this
    {
      state + left
    }

    /** The input still to be read. */
    ghost function Rest(): (b: seq<byte>)
      requires Valid()
      reads this, source
      ensures |b| == left
    {
      source[state..state + left]
    }

    constructor (source: array<byte>, state: nat, left: nat)
      requires state + left <= source.Length
      ensures Valid() && this.source == source && this.state == state && this.left == left
    {
      this.source, this.state, this.left := source, state, left;
    }

    /** `pb_read` without a destination. */
    method SkipBytes(count: nat) returns (ok: bool)
      requires Valid()
      modifies this
      ensures Valid() && End() == old(End())
      ensures ok == (count <= |old(Rest())|)
      ensures ok ==> Rest() == old(Rest())[count..]
    {
      if left < count {
        return false;
      }
      state := state + count;
      left := left - count;
      return true;
    }

    /** `pb_read` into a buffer. */
    method Read(count: nat) returns (ok: bool, data: seq<byte>)
      requires Valid()
      modifies this
      ensures Valid() && End() == old(End())
      ensures ok == Take(old(Rest()), count).Some?
      ensures ok ==> data == Take(old(Rest()), count).value.0 && Rest() == Take(old(Rest()), count).value.1
    {
      if left < count {
        return false, [];
      }
      var buf := new byte[count];
      var i := 0;
      while i < count
        invariant i <= count && state == old(state) && left == old(left)
        invariant buf[..i] == source[state..state + i]
      {
        buf[i] := source[state + i];
        i := i + 1;
      }
      assert buf[..] == buf[..count] && Rest()[..count] == source[state..state + count];
      state := state + count;
      left := left - count;
      return true, buf[..];
    }

    method ReadByte() returns (ok: bool, b: byte)
      requires Valid()
      modifies this
      ensures Valid() && End() == old(End())
      ensures ok == (old(Rest()) != [])
      ensures ok ==> b == old(Rest())[0] && Rest() == old(Rest())[1..]
      ensures !ok ==> Rest() == old(Rest())
    {
      if left == 0 {
        return false, 0;
      }
      b := source[state];
      state := state + 1;
      left := left - 1;
      return true, b;
    }

    /** `weight` is `1 << bitpos`; bits shifted past the top are lost. */
    method DecodeVarint32() returns (ok: bool, dest: nat)
      requires Valid()
      modifies this
      ensures Valid() && End() == old(End())
      ensures ok == Scan32(old(Rest())).Scan?
      ensures ok ==> dest == Scan32(old(Rest())).value
      ensures Rest() == Scan32(old(Rest())).rest
    {
      hide Groups, Shift, Onto, Scan32, Scan64, Valid, End, Rest;
      ghost var start := Rest();
      OntoNothing(Groups(start, LEN32));
      ScansOf(start);
      var b: byte;
      ok, b := ReadByte();
      if !ok {
        return false, 0;
      }
      OntoNext(0, 1, start, LEN32);
      ShiftNothing(b % 128);
      if b < 0x80 {
        return true, b;
      }
      var bitpos, weight: nat, result: nat := 7, 128, b % 128;
      ghost var raw: nat, k: nat := b % 128, 1;
      while true
        invariant Valid() && End() == old(End())
        invariant bitpos == 7 * k && 1 <= k <= LEN32 && result == raw % W32
        invariant Groups(start, LEN32) == Onto(raw, weight, Groups(Rest(), LEN32 - k))
        decreases LEN32 - k
      {
        ghost var before := Rest();
        if bitpos >= 32 {
          OntoStop(raw, weight, before, LEN32 - k);
          return false, 0;
        }
        ok, b := ReadByte();
        if !ok {
          OntoStop(raw, weight, before, LEN32 - k);
          return false, 0;
        }
        OntoNext(raw, weight, before, LEN32 - k);
        Truncate(raw, Shift(b % 128, weight), W32);
        raw := raw + Shift(b % 128, weight);
        result := (result + Shift(b % 128, weight)) % W32;
        bitpos := bitpos + 7;
        weight := weight * 128;
        k := k + 1;
        if b < 0x80 {
          return true, result;
        }
      }
    }

    method DecodeVarint() returns (ok: bool, dest: nat)
      requires Valid()
      modifies this
      ensures Valid() && End() == old(End())
      ensures ok == Scan64(old(Rest())).Scan?
      ensures ok ==> dest == Scan64(old(Rest())).value
      ensures Rest() == Scan64(old(Rest())).rest
    {
      hide Groups, Shift, Onto, Scan32, Scan64, Valid, End, Rest;
      ghost var start := Rest();
      var bitpos, weight: nat, result: nat := 0, 1, 0;
      ghost var raw: nat, k: nat := 0, 0;
      OntoNothing(Groups(start, LEN64));
      ScansOf(start);
      while true
        invariant Valid() && End() == old(End())
        invariant bitpos == 7 * k && 0 <= k <= LEN64 && result == raw % W64
        invariant Groups(start, LEN64) == Onto(raw, weight, Groups(Rest(), LEN64 - k))
        decreases LEN64 - k
      {
        ghost var before := Rest();
        if bitpos >= 64 {
          OntoStop(raw, weight, before, LEN64 - k);
          return false, 0;
        }
        var b: byte;
        ok, b := ReadByte();
        if !ok {
          OntoStop(raw, weight, before, LEN64 - k);
          return false, 0;
        }
        OntoNext(raw, weight, before, LEN64 - k);
        Truncate(raw, Shift(b % 128, weight), W64);
        raw := raw + Shift(b % 128, weight);
        result := (result + Shift(b % 128, weight)) % W64;
        bitpos := bitpos + 7;
        weight := weight * 128;
        k := k + 1;
        if b < 0x80 {
          return true, result;
        }
      }
    }

    method SkipVarint() returns (ok: bool)
      requires Valid()
      modifies this
      ensures Valid() && End() == old(End())
      ensures ok == PbWire.SkipVarint(old(Rest())).Some?
      ensures ok ==> Rest() == PbWire.SkipVarint(old(Rest())).value
    {
      var b: byte := 0x80;
      while b >= 0x80
        invariant Valid() && End() == old(End())
        invariant b >= 0x80 ==> PbWire.SkipVarint(Rest()) == PbWire.SkipVarint(old(Rest()))
        invariant b < 0x80 ==> PbWire.SkipVarint(old(Rest())) == Some(Rest())
        decreases left + if b >= 0x80 then 1 else 0
      {
        ok, b := ReadByte();
        if !ok {
          return false;
        }
      }
      return true;
    }

    method DecodeTag() returns (ok: bool, wire: nat, tag: nat, eof: bool)
      requires Valid()
      modifies this
      ensures Valid() && End() == old(End())
      ensures match ReadTag(old(Rest()))
        case Tag(t, w, rest) => ok && tag == t && wire == w && Rest() == rest
        case End(rest) => !ok && eof && Rest() == rest
        case BadTag => !ok && !eof
    {
      eof, wire, tag := false, 0, 0;
      var temp;
      ok, temp := DecodeVarint32();
      if !ok {
        if left == 0 {
          eof := true;
        }
        return;
      }
      if temp == 0 {
        eof := true;
        ok := false;
        return;
      }
      tag := temp / 8;
      wire := temp % 8;
    }

    /** `pb_skip_field`. */
    method SkipField(wire: nat) returns (ok: bool)
      requires Valid()
      modifies this
      ensures Valid() && End() == old(End())
      ensures ok == Skip(wire, old(Rest())).Some?
      ensures ok ==> Rest() == Skip(wire, old(Rest())).value
    {
      if wire == VARINT {
        ok := SkipVarint();
      } else if wire == BITS64 {
        ok := SkipBytes(8);
      } else if wire == DELIMITED {
        var length;
        ok, length := DecodeVarint32();
        if ok {
          ok := SkipBytes(length);
        }
      } else if wire == BITS32 {
        ok := SkipBytes(4);
      } else {
        ok := false;
      }
    }

    /** The payload becomes a stream of its own; until it is closed, this one still stands at
        the payload, but no longer counts it. */
    method MakeSubstream() returns (ok: bool, sub: IStream)
      requires Valid()
      modifies this
      ensures Valid() && sub.Valid() && sub.source == source && fresh(sub)
      ensures ok == Delimited(old(Rest())).Some?
      ensures ok ==> sub.Rest() == Delimited(old(Rest())).value.0
      ensures ok ==> sub.End() + left == old(End())
      ensures ok ==> source[sub.End()..old(End())] == Delimited(old(Rest())).value.1
      ensures End() <= old(End())
    {
      hide Scan32;
      var size;
      ok, size := DecodeVarint32();
      if !ok || left < size {
        ok := false;
        sub := new IStream(source, state, left);
        return;
      }
      ghost var rest := Rest();
      assert rest[..size] == source[state..state + size];
      assert rest[size..] == source[state + size..state + left];
      sub := new IStream(source, state, size);
      left := left - size;
    }

    method CloseSubstream(sub: IStream) returns (ok: bool)
      requires Valid() && sub.Valid() && sub.source == source && sub != this
      requires sub.End() + left <= source.Length
      modifies this, sub
      ensures Valid() && ok && state == old(sub.End()) && left == old(left)
    {
      if sub.left != 0 {
        ok := sub.SkipBytes(sub.left);
        if !ok {
          assert false;
        }
      }
      state := sub.state;
      ok := true;
    }
  }
}
