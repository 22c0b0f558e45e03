/** The output stream and the encoder that fills it (nanopb/pb_encode.c:62-201, 271-349, 451-489, 494-776). */
module PbOutput {
  import opened Wrappers
  import opened PbWire
  import opened PbSchema
  import opened PbEncoding
  import opened PbIter

  /** The pieces of an encoding that a loop has already written, then the ones to come. */
  function Join(done: seq<byte>, rest: Option<seq<byte>>): Option<seq<byte>> {
    match rest { case None => None case Some(b) => Some(done + b) }
  }

  // ----- Lengths that a `size_t` holds -------------------------------------------

  predicate Small(b: Option<seq<byte>>) {
    b.Some? ==> |b.value| < W64
  }

  predicate SizedValue(k: Kind, v: Value)
    requires HasKind(k, v)
    decreases k
  {
    match k
    case Submsg(fs) => Small(EncodeFields(fs, v.slots)) && Sized(fs, v.slots)
    case _ => v.Raw? ==> |v.bytes| < W64
  }

  predicate SizedSlot(f: Field, s: Slot)
    requires FitsSlot(f, s)
    decreases f
  {
    && (forall i :: 0 <= i < |Present(f, s)| ==> SizedValue(f.kind, Present(f, s)[i]))
    && (Packable(f.kind) ==> Small(EncodePacked(f.kind, Present(f, s))))
  }

  /** Every length in the message, at any depth, fits in a `size_t`. */
  predicate Sized(fs: seq<Field>, slots: seq<Slot>)
    requires Fits(fs, slots)
    decreases fs
  {
    forall i :: 0 <= i < |fs| ==> FitsSlot(fs[i], slots[i]) && SizedSlot(fs[i], slots[i])
  }

  // ----- Small writers ---------------------------------------------------------------

  lemma Shifts(v: nat)
    ensures v / 256 / 256 == v / 0x1_0000
    ensures v / 0x1_0000 / 256 == v / 0x100_0000
    ensures v / 0x100_0000 / 256 == v / W32
  {
  }

  lemma LittleEndianBytes(v: nat, n: nat)
    ensures LittleEndian(v, n + 4) ==
      [v % 256, v / 256 % 256, v / 0x1_0000 % 256, v / 0x100_0000 % 256] + LittleEndian(v / W32, n)
  {
    Shifts(v);
    var v1, v2, v3 := v / 256, v / 0x1_0000, v / 0x100_0000;
    hide *;
    assert LittleEndian(v, n + 4) == [v % 256] + LittleEndian(v1, n + 3) by { LittleEndianStep(v, n + 3); }
    assert LittleEndian(v1, n + 3) == [v1 % 256] + LittleEndian(v2, n + 2) by { LittleEndianStep(v1, n + 2); }
    assert LittleEndian(v2, n + 2) == [v2 % 256] + LittleEndian(v3, n + 1) by { LittleEndianStep(v2, n + 1); }
    assert LittleEndian(v3, n + 1) == [v3 % 256] + LittleEndian(v / W32, n) by { LittleEndianStep(v3, n); }
  }

  lemma LittleEndianStep(v: nat, n: nat)
    ensures LittleEndian(v, n + 1) == [v % 256] + LittleEndian(v / 256, n)
  {
  }

  lemma {:induction false} UpToNulPrefix(s: seq<byte>, size: nat)
    requires size <= |s| && (size == |s| || s[size] == 0)
    requires forall i :: 0 <= i < size ==> s[i] != 0
    ensures UpToNul(s) == s[..size]
    decreases size
  {
    if size > 0 {
      UpToNulPrefix(s[1..], size - 1);
      assert s[..size] == [s[0]] + s[1..][..size - 1];
    }
  }

  /** The length loop of `pb_enc_string`. */
  method StringLength(s: seq<byte>, max: nat) returns (size: nat)
    requires |s| <= max
    ensures size <= |s| && s[..size] == UpToNul(s)
  {
    size := 0;
    while size < max && size < |s| && s[size] != 0
      invariant size <= |s|
      invariant forall i :: 0 <= i < size ==> s[i] != 0
    {
      size := size + 1;
    }
    UpToNulPrefix(s, size);
  }

  /** One turn of the loop that cuts `rest` into groups, `done` being cut off already; the last
      group still carries the continuation bit. */
  lemma VarintStep(value: nat, done: seq<byte>, rest: nat)
    requires 0 < rest && Varint(value) == done + Varint(rest)
    ensures var more := done + [rest % 128 + 128];
      if rest / 128 > 0 then Varint(value) == more + Varint(rest / 128)
      else LastCut(value, more)
    ensures |done| < |Varint(value)|
  {
    hide Varint;
    VarintParts(rest);
    var more := done + [rest % 128 + 128];
    assert more[..|done|] == done;
    if rest >= 128 {
      assert done + ([rest % 128 + 128] + Varint(rest / 128)) == more + Varint(rest / 128);
    }
  }

  lemma VarintParts(n: nat)
    ensures n < 128 ==> Varint(n) == [n] && n / 128 == 0 && n % 128 == n
    ensures n >= 128 ==> Varint(n) == [n % 128 + 128] + Varint(n / 128) && n / 128 > 0
  {
  }

  /** The byte loop of `pb_encode_varint`. */
  method VarintBytes(value: nat) returns (bytes: seq<byte>)
    requires value < W64
    ensures bytes == Varint(value)
  {
    if value <= 0x7F {
      return [value];
    }
    ScanVarint64(value, []);
    hide Varint;
    var buffer := new byte[10];
    var i: nat, rest: nat := 0, value;
    ghost var done: seq<byte> := [];
    while rest != 0
      invariant i == |done| <= 10 && buffer[..i] == done
      invariant rest != 0 ==> Varint(value) == done + Varint(rest)
      invariant rest == 0 ==> 0 < i && LastCut(value, done)
      decreases rest
    {
      VarintStep(value, done, rest);
      var group: byte := rest % 128 + 128;
      buffer[i] := group;
      Snoc(buffer, i, done);
      done := done + [group];
      rest := rest / 128;
      i := i + 1;
    }
    buffer[i - 1] := buffer[i - 1] % 128;
    assert buffer[..i - 1] == done[..i - 1];
    Snoc(buffer, i - 1, done[..i - 1]);
    return buffer[..i];
  }

  /** All groups are cut off, the last one still with its continuation bit. */
  ghost predicate LastCut(value: nat, done: seq<byte>)
    requires 0 < |done|
  {
    Varint(value) == done[..|done| - 1] + [done[|done| - 1] % 128]
  }

  lemma Snoc(a: array<byte>, i: nat, done: seq<byte>)
    requires i < a.Length && a[..i] == done
    ensures a[..i + 1] == done + [a[i]]
  {
  }

  class OStream {
    /** Null for a sizing stream, which only counts. */
    const buffer: array?<byte>
    const maxSize: nat
    var state: nat
    var written: nat

    /** Where `state` was at first, and the bytes written or counted since. */
    ghost const base: nat
    ghost var out: seq<byte>

    ghost predicate Valid()
      reads this, buffer
      ensures Valid() ==> RoomFor(0)
    {
      && |out| == written
      && (buffer != null ==>
            && written <= maxSize && base + maxSize <= buffer.Length && state == base + written
            && buffer[base..state] == out)
    }

    ghost predicate RoomFor(n: nat)
      reads this
    {
      buffer == null || |out| + n <= maxSize
    }

    /** Nothing before the start of the stream or past its `maxSize` changes. */
    twostate predicate Inside()
      reads this, buffer
    {
      buffer != null ==>
        && forall i :: 0 <= i < buffer.Length && (i < base || i >= base + maxSize) ==> buffer[i] == old(buffer[i])
    }

    constructor Sizing()
      ensures Valid() && buffer == null && out == []
    {
      buffer, maxSize, state, written, base, out := null, 0, 0, 0, 0, [];
    }

    constructor FromBuffer(buffer: array<byte>, at: nat, size: nat)
      requires at + size <= buffer.Length
      ensures Valid() && this.buffer == buffer && maxSize == size && base == at && out == []
    {
      this.buffer, maxSize, state, written, base, out := buffer, size, at, 0, at, [];
      new;
      assert buffer[base..state] == [];
    }

    /** `pb_write`. A sizing stream is given the count alone, a real one the `data` too. */
    method Write(data: seq<byte>, count: nat, ghost bytes: seq<byte>) returns (ok: bool)
      requires Valid() && |bytes| == count && (buffer != null ==> data == bytes)
      modifies this, buffer
      ensures Valid() && Inside()
      ensures ok == old(RoomFor(count))
      ensures ok ==> out == old(out) + bytes
      ensures !ok ==> out == old(out)
    {
      if buffer != null {
        if written + count > maxSize {
          return false;
        }
        BufWrite(data, count);
      }
      written := written + count;
      out := out + bytes;
      return true;
    }

    method BufWrite(data: seq<byte>, count: nat)
      requires buffer != null && |data| == count && state + count <= buffer.Length
      modifies this`state, buffer
      ensures state == old(state) + count
      ensures forall i :: 0 <= i < buffer.Length ==>
        buffer[i] == if old(state) <= i < state then data[i - old(state)] else old(buffer[i])
    {
      var dest := state;
      state := dest + count;
      var i := 0;
      while i < count
        invariant i <= count && state == dest + count
        invariant forall j :: 0 <= j < buffer.Length ==>
          buffer[j] == if dest <= j < dest + i then data[j - dest] else old(buffer[j])
      {
        buffer[dest + i] := data[i];
        i := i + 1;
      }
    }

    method EncodeVarint(value: nat) returns (ok: bool)
      requires Valid() && value < W64
      modifies this, buffer
      ensures Valid() && Inside()
      ensures ok == old(RoomFor(|Varint(value)|))
      ensures ok ==> out == old(out) + Varint(value)
    {
      var bytes := VarintBytes(value);
      ok := Write(bytes, |bytes|, bytes);
    }

    method EncodeSVarint(value: int) returns (ok: bool)
      requires Valid() && InSigned(Bits64, value)
      modifies this, buffer
      ensures Valid() && Inside()
      ensures ok == old(RoomFor(|Varint(ZigZag(value))|))
      ensures ok ==> out == old(out) + Varint(ZigZag(value))
    {
      var zigzagged: nat;
      if value < 0 {
        zigzagged := W64 - 1 - Unsigned64(value) * 2 % W64;
      } else {
        zigzagged := value * 2 % W64;
      }
      ok := EncodeVarint(zigzagged);
    }

    method EncodeFixed32(v: nat) returns (ok: bool)
      requires Valid()
      modifies this, buffer
      ensures Valid() && Inside()
      ensures ok == old(RoomFor(4))
      ensures ok ==> out == old(out) + LittleEndian(v, 4)
    {
      var bytes: seq<byte> := [v % 256, v / 256 % 256, v / 0x1_0000 % 256, v / 0x100_0000 % 256];
      LittleEndianBytes(v, 0);
      assert bytes == LittleEndian(v, 4);
      ok := Write(bytes, 4, bytes);
    }

    method EncodeFixed64(v: nat) returns (ok: bool)
      requires Valid()
      modifies this, buffer
      ensures Valid() && Inside()
      ensures ok == old(RoomFor(8))
      ensures ok ==> out == old(out) + LittleEndian(v, 8)
    {
      var high := v / W32;
      var bytes: seq<byte> := [v % 256, v / 256 % 256, v / 0x1_0000 % 256, v / 0x100_0000 % 256,
        high % 256, high / 256 % 256, high / 0x1_0000 % 256, high / 0x100_0000 % 256];
      LittleEndianBytes(v, 4);
      LittleEndianBytes(high, 0);
      assert bytes == LittleEndian(v, 8);
      ok := Write(bytes, 8, bytes);
    }

    method EncodeTag(wire: nat, f: Field) returns (ok: bool)
      requires Valid() && GoodField(f) && wire < 8
      modifies this, buffer
      ensures Valid() && Inside()
      ensures ok == old(RoomFor(|TagBytes(f, wire)|))
      ensures ok ==> out == old(out) + TagBytes(f, wire)
    {
      ok := EncodeVarint(f.tag * 8 + wire);
    }

    method EncodeString(data: seq<byte>) returns (ok: bool)
      requires Valid() && |data| < W64
      modifies this, buffer
      ensures Valid() && Inside()
      ensures ok == old(RoomFor(|Prefixed(data)|))
      ensures ok ==> out == old(out) + Prefixed(data)
    {
      ok := EncodeVarint(|data|);
      if !ok {
        return;
      }
      ok := Write(data, |data|, data);
      assert ok ==> out == old(out) + (Varint(|data|) + data);
    }

    /** The function table: one item of kind `k`, without its tag. */
    method EncodeItem(k: Kind, v: Value) returns (ok: bool)
      requires Valid() && GoodKind(k) && HasKind(k, v) && SizedValue(k, v)
      modifies this, buffer
      ensures Valid() && Inside()
      ensures ok == (EncodeValue(k, v).Some? && old(RoomFor(|EncodeValue(k, v).value|)))
      ensures ok ==> out == old(out) + EncodeValue(k, v).value
      decreases k, 0
    {
      match k
      case VarintKind(_) => ok := EncodeVarint(Unsigned64(v.n));
      case UVarintKind(_) => ok := EncodeVarint(v.n);
      case SVarintKind(_) => ok := EncodeSVarint(v.n);
      case Fixed32 => ok := EncodeFixed32(v.n);
      case Fixed64 => ok := EncodeFixed64(v.n);
      case Bytes(cap) =>
        if |v.bytes| > cap {
          return false;
        }
        ok := EncodeString(v.bytes);
      case Str(cap) =>
        var size := StringLength(v.bytes, cap);
        ok := EncodeString(v.bytes[..size]);
      case FixedBytes(_) => ok := EncodeString(v.bytes);
      case Submsg(fs) => ok := EncodeSubmessage(fs, v.slots);
    }

    /** Two passes: the first one only counts. */
    method EncodeSubmessage(fs: seq<Field>, slots: seq<Slot>) returns (ok: bool)
      requires Valid() && WellFormed(fs) && Fits(fs, slots) && Small(EncodeFields(fs, slots)) && Sized(fs, slots)
      modifies this, buffer
      ensures Valid() && Inside()
      ensures var b := EncodeFields(fs, slots);
        && ok == (b.Some? && old(RoomFor(|Prefixed(b.value)|)))
        && (ok ==> out == old(out) + Prefixed(b.value))
      decreases fs, 5
    {
      hide EncodeFields, Sized, Fits;
      var substream := new OStream.Sizing();
      ok := substream.EncodeMessage(fs, slots);
      if !ok {
        return;
      }
      ghost var b := EncodeFields(fs, slots).value;
      var size := substream.written;
      ok := EncodeVarint(size);
      if !ok {
        return;
      }
      if buffer == null {
        ok := Write([], size, b);
      } else {
        ok := EncodeCounted(fs, slots, size);
      }
      assert ok ==> out == old(out) + (Varint(|b|) + b);
    }

    /** The second pass, on a stream of its own that shares the buffer. */
    method EncodeCounted(fs: seq<Field>, slots: seq<Slot>, size: nat) returns (ok: bool)
      requires Valid() && WellFormed(fs) && Fits(fs, slots) && Sized(fs, slots) && buffer != null
      requires EncodeFields(fs, slots).Some? && |EncodeFields(fs, slots).value| == size
      modifies this, buffer
      ensures Valid() && Inside()
      ensures ok == old(RoomFor(size))
      ensures ok ==> out == old(out) + EncodeFields(fs, slots).value
      decreases fs, 4
    {
      hide EncodeFields, Sized, Fits;
      if written + size > maxSize {
        return false;
      }
      var substream := new OStream.FromBuffer(buffer, state, size);
      ok := substream.EncodeMessage(fs, slots);
      AfterSubstream(substream);
      written := written + substream.written;
      state := substream.state;
      out := out + substream.out;
      if substream.written != size {
        assert false; // "submsg size changed"
      }
    }

    /** What the substream wrote continues what this stream had written. */
    twostate lemma AfterSubstream(new sub: OStream)
      requires buffer != null && old(Valid()) && sub.Valid() && sub.buffer == buffer
      requires forall i :: 0 <= i < buffer.Length && (i < sub.base || i >= sub.base + sub.maxSize) ==>
        buffer[i] == old(buffer[i])
      requires out == old(out) && state == old(state) && written == old(written)
      requires sub.base == state && sub.maxSize <= maxSize - written
      ensures buffer[base..sub.state] == out + sub.out
      ensures Inside()
    {
    }

    method EncodeMessage(fs: seq<Field>, slots: seq<Slot>) returns (ok: bool)
      requires Valid() && WellFormed(fs) && Fits(fs, slots) && Sized(fs, slots)
      modifies this, buffer
      ensures Valid() && Inside()
      ensures var b := EncodeFields(fs, slots);
        && ok == (b.Some? && old(RoomFor(|b.value|)))
        && (ok ==> out == old(out) + b.value)
      decreases fs, 3
    {
      hide EncodeSlot, Sized, SizedSlot, FitsSlot, HasKind, FieldIter.Valid, Valid;
      var iter := new FieldIter(fs, 0);
      if fs == [] {
        return true;
      }
      ghost var done: seq<byte> := [];
      assert fs[0..] == fs && slots[0..] == slots;
      JoinNothing(EncodeFields(fs, slots));
      var more := true;
      while more
        invariant Valid() && Inside() && iter.Valid() && iter.fields == fs
        invariant out == old(out) + done
        invariant more ==> iter.pos < |fs| && Fits(fs[iter.pos..], slots[iter.pos..])
        invariant more ==> EncodeFields(fs, slots) == Join(done, EncodeFields(fs[iter.pos..], slots[iter.pos..]))
        invariant !more ==> EncodeFields(fs, slots) == Some(done)
        invariant RoomFor(0)
        decreases if more then |fs| - iter.pos else 0
      {
        var i := iter.pos;
        SizedAt(fs, slots, i);
        ok := EncodeField(fs[i], slots[i]);
        SuffixStep(fs, slots, i, done);
        if !ok {
          return;
        }
        done := done + EncodeSlot(fs[i], slots[i]).value;
        more := iter.Next();
      }
      ok := true;
    }

    method EncodeField(f: Field, s: Slot) returns (ok: bool)
      requires Valid() && GoodField(f) && FitsSlot(f, s) && SizedSlot(f, s)
      modifies this, buffer
      ensures Valid() && Inside()
      ensures var b := EncodeSlot(f, s);
        && ok == (b.Some? && old(RoomFor(|b.value|)))
        && (ok ==> out == old(out) + b.value)
      decreases f, 3
    {
      hide EncodeValue, Valid;
      ghost var sent := Present(f, s);
      assert sent != [] ==> HasKind(f.kind, sent[0]) && SizedValue(f.kind, sent[0]);
      match f.rule
      case Required => ok := EncodeTagged(f, s.v);
      case Singular =>
        var implicitHas := !IsZero(f.kind, s.v);
        if implicitHas {
          ok := EncodeTagged(f, s.v);
        } else {
          ok := true;
        }
      case Optional =>
        if s.has {
          ok := EncodeTagged(f, s.v);
        } else {
          ok := true;
        }
      case Repeated(_) => ok := EncodeArray(f, s.items);
      case Oneof(_) =>
        if s.which.Some? {
          ok := EncodeTagged(f, s.which.value);
        } else {
          ok := true;
        }
    }

    method EncodeTagged(f: Field, v: Value) returns (ok: bool)
      requires Valid() && GoodField(f) && HasKind(f.kind, v) && SizedValue(f.kind, v)
      modifies this, buffer
      ensures Valid() && Inside()
      ensures var b := EncodeEach(f, [v]);
        && ok == (b.Some? && old(RoomFor(|b.value|)))
        && (ok ==> out == old(out) + b.value)
      decreases f, 1
    {
      hide EncodeValue, Valid;
      ghost var tag := TagBytes(f, WireType(f.kind));
      assert EncodeEach(f, [v][1..]) == Some([]);
      ok := EncodeTag(WireType(f.kind), f);
      if !ok {
        return;
      }
      ok := EncodeItem(f.kind, v);
      if ok {
        ghost var b := EncodeValue(f.kind, v).value;
        assert tag + b + [] == tag + b;
        assert out == old(out) + (tag + b);
      }
    }

    /** Arrays are packed whenever their items can be. */
    method EncodeArray(f: Field, items: seq<Value>) returns (ok: bool)
      requires Valid() && GoodField(f) && f.rule.Repeated? && FitsSlot(f, Many(items)) && SizedSlot(f, Many(items))
      modifies this, buffer
      ensures Valid() && Inside()
      ensures var b := EncodeSlot(f, Many(items));
        && ok == (b.Some? && old(RoomFor(|b.value|)))
        && (ok ==> out == old(out) + b.value)
      decreases f, 2
    {
      hide EncodeValue, Valid;
      if |items| == 0 {
        return true;
      }
      if |items| > f.rule.max {
        return false;
      }
      ghost var sent := Present(f, Many(items));
      assert sent == items && forall i :: 0 <= i < |sent| ==> SizedValue(f.kind, sent[i]);
      if Packable(f.kind) {
        ok := EncodePackedArray(f, items);
      } else {
        ok := EncodeItems(f, items);
      }
    }

    method EncodePackedArray(f: Field, items: seq<Value>) returns (ok: bool)
      requires Valid() && GoodField(f) && Packable(f.kind) && items != []
      requires forall i :: 0 <= i < |items| ==> HasKind(f.kind, items[i]) && SizedValue(f.kind, items[i])
      requires Small(EncodePacked(f.kind, items))
      modifies this, buffer
      ensures Valid() && Inside()
      ensures var b := EncodePacked(f.kind, items);
        && ok == (b.Some? && old(RoomFor(|TagBytes(f, DELIMITED) + Prefixed(b.value)|)))
        && (ok ==> out == old(out) + (TagBytes(f, DELIMITED) + Prefixed(b.value)))
      decreases f, 1
    {
      hide EncodeValue, EncodePacked, Valid;
      ok := EncodeTag(DELIMITED, f);
      if !ok {
        PackedEncodes(f.kind, items);
        return;
      }
      var size := PackedSize(f.kind, items);
      PackedEncodes(f.kind, items);
      ghost var b := EncodePacked(f.kind, items).value;
      ok := EncodeVarint(size);
      if !ok {
        return;
      }
      if buffer == null {
        ok := Write([], size, b);
      } else {
        ok := EncodeRun(f.kind, items);
      }
      assert ok ==> out == old(out) + (TagBytes(f, DELIMITED) + (Varint(|b|) + b));
    }

    /** The total size of a packed array: a product, or what a sizing stream counts. */
    static method PackedSize(k: Kind, items: seq<Value>) returns (size: nat)
      requires Packable(k) && forall i :: 0 <= i < |items| ==> HasKind(k, items[i])
      ensures EncodePacked(k, items).Some? && size == |EncodePacked(k, items).value|
      decreases k, 2
    {
      hide EncodeValue, EncodePacked;
      PackedEncodes(k, items);
      if k.Fixed32? {
        return 4 * |items|;
      }
      if k.Fixed64? {
        return 8 * |items|;
      }
      var sizestream := new OStream.Sizing();
      assert forall i :: 0 <= i < |items| ==> SizedValue(k, items[i]);
      var ok := sizestream.EncodeRun(k, items);
      return sizestream.written;
    }

    /** Items without tags: the data loop of a packed array, and its counting loop. */
    method EncodeRun(k: Kind, items: seq<Value>) returns (ok: bool)
      requires Valid() && GoodKind(k)
      requires forall i :: 0 <= i < |items| ==> HasKind(k, items[i]) && SizedValue(k, items[i])
      modifies this, buffer
      ensures Valid() && Inside()
      ensures var b := EncodePacked(k, items);
        && ok == (b.Some? && old(RoomFor(|b.value|)))
        && (ok ==> out == old(out) + b.value)
      decreases k, 1
    {
      hide EncodeValue, Valid, SizedValue, HasKind;
      var i := 0;
      ghost var done: seq<byte> := [];
      assert items[0..] == items;
      JoinNothing(EncodePacked(k, items));
      while i < |items|
        invariant i <= |items| && Valid() && Inside() && RoomFor(0)
        invariant out == old(out) + done
        invariant EncodePacked(k, items) == Join(done, EncodePacked(k, items[i..]))
      {
        ok := EncodeItem(k, items[i]);
        RunStep(k, items, i, done);
        if !ok {
          return;
        }
        done := done + EncodeValue(k, items[i]).value;
        i := i + 1;
      }
      ok := true;
    }

    /** Items that each get a tag. */
    method EncodeItems(f: Field, items: seq<Value>) returns (ok: bool)
      requires Valid() && GoodField(f)
      requires forall i :: 0 <= i < |items| ==> HasKind(f.kind, items[i]) && SizedValue(f.kind, items[i])
      modifies this, buffer
      ensures Valid() && Inside()
      ensures var b := EncodeEach(f, items);
        && ok == (b.Some? && old(RoomFor(|b.value|)))
        && (ok ==> out == old(out) + b.value)
      decreases f, 1
    {
      hide EncodeValue, Valid, SizedValue, HasKind;
      var i := 0;
      ghost var done: seq<byte> := [];
      assert items[0..] == items;
      JoinNothing(EncodeEach(f, items));
      while i < |items|
        invariant i <= |items| && Valid() && Inside() && RoomFor(0)
        invariant out == old(out) + done
        invariant EncodeEach(f, items) == Join(done, EncodeEach(f, items[i..]))
      {
        EachStep(f, items, i, done);
        ok := EncodeTag(WireType(f.kind), f);
        if !ok {
          return;
        }
        ok := EncodeItem(f.kind, items[i]);
        if !ok {
          return;
        }
        done := done + (TagBytes(f, WireType(f.kind)) + EncodeValue(f.kind, items[i]).value);
        i := i + 1;
      }
      ok := true;
    }
  }

  lemma JoinNothing(b: Option<seq<byte>>)
    ensures Join([], b) == b
  {
    if b.Some? {
      assert [] + b.value == b.value;
    }
  }

  lemma {:induction false} PackedEncodes(k: Kind, vs: seq<Value>)
    requires Packable(k) && forall i :: 0 <= i < |vs| ==> HasKind(k, vs[i])
    ensures EncodePacked(k, vs).Some?
    ensures k.Fixed32? ==> |EncodePacked(k, vs).value| == 4 * |vs|
    ensures k.Fixed64? ==> |EncodePacked(k, vs).value| == 8 * |vs|
    decreases |vs|
  {
    if vs != [] {
      PackedEncodes(k, vs[1..]);
    }
  }

  lemma RunStep(k: Kind, vs: seq<Value>, i: nat, done: seq<byte>)
    requires i < |vs| && forall j :: 0 <= j < |vs| ==> HasKind(k, vs[j])
    ensures var b := EncodeValue(k, vs[i]);
      Join(done, EncodePacked(k, vs[i..])) ==
        if b.None? then None else Join(done + b.value, EncodePacked(k, vs[i + 1..]))
  {
    hide EncodeValue;
    assert vs[i..][1..] == vs[i + 1..];
    var b, rest := EncodeValue(k, vs[i]), EncodePacked(k, vs[i + 1..]);
    if b.Some? && rest.Some? {
      assert done + (b.value + rest.value) == done + b.value + rest.value;
    }
  }

  lemma EachStep(f: Field, vs: seq<Value>, i: nat, done: seq<byte>)
    requires i < |vs| && forall j :: 0 <= j < |vs| ==> HasKind(f.kind, vs[j])
    ensures var b := EncodeValue(f.kind, vs[i]);
      var tag := TagBytes(f, WireType(f.kind));
      Join(done, EncodeEach(f, vs[i..])) ==
        if b.None? then None else Join(done + (tag + b.value), EncodeEach(f, vs[i + 1..]))
  {
    hide EncodeValue;
    assert vs[i..][1..] == vs[i + 1..];
    var b, rest := EncodeValue(f.kind, vs[i]), EncodeEach(f, vs[i + 1..]);
    var tag := TagBytes(f, WireType(f.kind));
    if b.Some? && rest.Some? {
      assert done + (tag + b.value + rest.value) == done + (tag + b.value) + rest.value;
    }
  }

  lemma SizedAt(fs: seq<Field>, slots: seq<Slot>, i: nat)
    requires WellFormed(fs) && Fits(fs, slots) && Sized(fs, slots) && i < |fs|
    ensures GoodField(fs[i]) && FitsSlot(fs[i], slots[i]) && SizedSlot(fs[i], slots[i])
  {
  }

  /** The field at `i` is the first of those to come; then it is the last of those done. */
  lemma SuffixStep(fs: seq<Field>, slots: seq<Slot>, i: nat, done: seq<byte>)
    requires Fits(fs, slots) && i < |fs| && Fits(fs[i..], slots[i..]) && FitsSlot(fs[i], slots[i])
    ensures Fits(fs[i + 1..], slots[i + 1..])
    ensures var rest := EncodeFields(fs[i + 1..], slots[i + 1..]);
      var b := EncodeSlot(fs[i], slots[i]);
      Join(done, EncodeFields(fs[i..], slots[i..])) ==
        if b.None? then None else Join(done + b.value, rest)
    ensures i + 1 == |fs| && EncodeSlot(fs[i], slots[i]).Some? ==>
      Join(done, EncodeFields(fs[i..], slots[i..])) == Some(done + EncodeSlot(fs[i], slots[i]).value)
  {
    hide EncodeSlot;
    assert fs[i..][1..] == fs[i + 1..] && slots[i..][1..] == slots[i + 1..];
    var b, rest := EncodeSlot(fs[i], slots[i]), EncodeFields(fs[i + 1..], slots[i + 1..]);
    if i + 1 == |fs| && b.Some? {
      assert rest == Some([]) && done + (b.value + []) == done + b.value;
    }
    if b.Some? && rest.Some? {
      assert done + (b.value + rest.value) == done + b.value + rest.value;
    }
  }

  /** `pb_get_encoded_size`. */
  method EncodedSize(fs: seq<Field>, slots: seq<Slot>) returns (size: Option<nat>)
    requires WellFormed(fs) && Fits(fs, slots) && Sized(fs, slots)
    ensures size == match EncodeFields(fs, slots) { case None => None case Some(b) => Some(|b|) }
  {
    var stream := new OStream.Sizing();
    var ok := stream.EncodeMessage(fs, slots);
    if !ok {
      return None;
    }
    return Some(stream.written);
  }

  /** A buffer encode succeeds exactly when sizing does and the size fits, and writes nothing
      past the size it was given. */
  method EncodeToBuffer(buffer: array<byte>, size: nat, fs: seq<Field>, slots: seq<Slot>)
    returns (ok: bool, written: nat)
    requires size <= buffer.Length && WellFormed(fs) && Fits(fs, slots) && Sized(fs, slots)
    modifies buffer
    ensures ok == (EncodeFields(fs, slots).Some? && |EncodeFields(fs, slots).value| <= size)
    ensures ok ==> written == |EncodeFields(fs, slots).value| && buffer[..written] == EncodeFields(fs, slots).value
    ensures buffer[size..] == old(buffer[size..])
  {
    var stream := new OStream.FromBuffer(buffer, 0, size);
    ok := stream.EncodeMessage(fs, slots);
    written := stream.written;
  }
}
