/** The decoder run on the encoder's output (nanopb/pb_encode.c:116-201, 271-349, 451-473;
    nanopb/pb_decode.c:356-429, 852-967). */
module PbDelivery {
  import opened Wrappers
  import opened PbWire
  import opened PbSchema
  import opened PbEncoding
  import opened PbDecoding
  import opened PbExchange

  // ----- One item ----------------------------------------------------------------

  lemma SignedOfUnsigned(w: Width, n: int)
    requires InSigned(w, n)
    ensures Signed(Unsigned64(n), W64) == n
    ensures w != Bits64 ==> Signed(Unsigned64(n) % W32, W32) == n
  {
    if w != Bits64 && n < 0 {
      assert Unsigned64(n) == (W32 - 1) * W32 + (n + W32);
    }
  }

  lemma ReadEncodedScalar(k: Kind, v: Value, b: seq<byte>, rest: seq<byte>)
    requires !k.Submsg? && GoodKind(k) && HasKind(k, v) && CleanValue(k, v)
    requires EncodeValue(k, v) == Some(b)
    ensures ReadScalar(k, b + rest) == Some((v, rest))
    ensures b != []
  {
    match k
    case VarintKind(w) => ScanVarint64(Unsigned64(v.n), rest); SignedOfUnsigned(w, v.n);
    case UVarintKind(w) => ScanVarint64(v.n, rest);
    case SVarintKind(w) => ScanVarint64(ZigZag(v.n), rest); UnZigZagZigZag(v.n);
    case Fixed32 => ReadEncodedFixed(v.n, 4, b, rest);
    case Fixed64 => ReadEncodedFixed(v.n, 8, b, rest);
    case Bytes(_) => ReadEncodedRaw(v.bytes, b, rest);
    case Str(_) => ReadEncodedRaw(v.bytes, b, rest);
    case FixedBytes(_) => ReadEncodedRaw(v.bytes, b, rest);
  }

  lemma ReadEncodedFixed(n: nat, size: nat, b: seq<byte>, rest: seq<byte>)
    requires (size == 4 && n < W32) || (size == 8 && n < W64)
    requires b == LittleEndian(n, size)
    ensures Take(b + rest, size) == Some((b, rest)) && FromLittleEndian(b) == n
  {
    Pow256Values();
    FromToLittleEndian(n, size);
    assert (b + rest)[..size] == b && (b + rest)[size..] == rest;
  }

  lemma ReadEncodedRaw(raw: seq<byte>, b: seq<byte>, rest: seq<byte>)
    requires |raw| < W32 && b == Prefixed(raw)
    ensures Scan32(b + rest) == Scan(|raw|, raw + rest)
    ensures Take(raw + rest, |raw|) == Some((raw, rest))
    ensures Delimited(b + rest) == Some((raw, rest))
  {
    assert b + rest == Varint(|raw|) + (raw + rest);
    ScanVarint32(|raw|, raw + rest);
    TakeExtend(raw, |raw|, rest);
  }

  lemma {:induction false} ReadPackedItems(k: Kind, items: seq<Value>, max: nat, vs: seq<Value>, b: seq<byte>)
    requires Packable(k)
    requires forall i :: 0 <= i < |items| ==> HasKind(k, items[i])
    requires forall i :: 0 <= i < |vs| ==> HasKind(k, vs[i])
    requires EncodePacked(k, vs) == Some(b)
    ensures ReadPacked(k, items, max, b) ==
      if vs == [] || |items| + |vs| <= max then Some(items + vs) else None
    decreases |vs|
  {
    hide ReadScalar;
    if vs == [] {
      assert items + vs == items;
    } else {
      var c := EncodeValue(k, vs[0]).value;
      var d := EncodePacked(k, vs[1..]).value;
      ReadEncodedScalar(k, vs[0], c, d);
      if |items| < max {
        ReadPackedItems(k, items + [vs[0]], max, vs[1..], d);
        assert items + [vs[0]] + vs[1..] == items + vs;
      }
    }
  }

  // ----- Steps of the field loop ---------------------------------------------------

  lemma ReadTagged(small: seq<Field>, slots: seq<Slot>, seen: set<nat>, f: Field, wire: nat, at: nat, b: seq<byte>)
    requires WellFormed(small) && Fits(small, slots) && GoodField(f) && wire < 8
    requires Find(small, f.tag) == Some(at)
    ensures ReadFields(small, slots, seen, TagBytes(f, wire) + b) ==
      match ReadField(small, slots, at, wire, b)
      case None => None
      case Some((slots', rest)) => ReadFields(small, slots', seen + {at}, rest)
  {
    hide ReadFields, ReadField, ReadTag, Skip;
    ReadTagOfTag(f.tag, wire, b);
    Unfold(small, slots, seen, TagBytes(f, wire) + b);
  }

  lemma SkipTagged(small: seq<Field>, slots: seq<Slot>, seen: set<nat>, f: Field, wire: nat, b: seq<byte>,
                   rest: seq<byte>)
    requires WellFormed(small) && Fits(small, slots) && GoodField(f) && wire < 8
    requires Find(small, f.tag).None? && Skip(wire, b) == Some(rest)
    ensures ReadFields(small, slots, seen, TagBytes(f, wire) + b) == ReadFields(small, slots, seen, rest)
  {
    hide ReadFields, ReadField, ReadTag, Skip;
    ReadTagOfTag(f.tag, wire, b);
    Unfold(small, slots, seen, TagBytes(f, wire) + b);
  }

  /** Skipping takes exactly the payload, whatever the kind. */
  lemma SkipEncoded(k: Kind, v: Value, b: seq<byte>, rest: seq<byte>)
    requires GoodKind(k) && HasKind(k, v) && EncodeValue(k, v) == Some(b) && |b| < W32
    ensures Skip(WireType(k), b + rest) == Some(rest)
  {
    match k
    case VarintKind(_) => SkipVarintOfVarint(Unsigned64(v.n), rest);
    case UVarintKind(_) => SkipVarintOfVarint(v.n, rest);
    case SVarintKind(_) => SkipVarintOfVarint(ZigZag(v.n), rest);
    case Fixed32 => TakeExtend(b, 4, rest);
    case Fixed64 => TakeExtend(b, 8, rest);
    case Bytes(_) => ReadEncodedRaw(v.bytes, b, rest);
    case Str(_) => ReadEncodedRaw(UpToNul(v.bytes), b, rest);
    case FixedBytes(_) => ReadEncodedRaw(v.bytes, b, rest);
    case Submsg(fs) => ReadEncodedRaw(EncodeFields(fs, v.slots).value, b, rest);
  }

  lemma {:induction false} SkipEach(small: seq<Field>, slots: seq<Slot>, seen: set<nat>, f: Field, vs: seq<Value>,
                                    b: seq<byte>, rest: seq<byte>)
    requires WellFormed(small) && Fits(small, slots) && GoodField(f) && Find(small, f.tag).None?
    requires forall i :: 0 <= i < |vs| ==> HasKind(f.kind, vs[i])
    requires EncodeEach(f, vs) == Some(b) && |b| < W32
    ensures ReadFields(small, slots, seen, b + rest) == ReadFields(small, slots, seen, rest)
    decreases |vs|
  {
    if vs == [] {
      assert b + rest == rest;
    } else {
      var c := EncodeValue(f.kind, vs[0]).value;
      var d := EncodeEach(f, vs[1..]).value;
      assert b + rest == TagBytes(f, WireType(f.kind)) + (c + (d + rest));
      SkipEncoded(f.kind, vs[0], c, d + rest);
      SkipTagged(small, slots, seen, f, WireType(f.kind), c + (d + rest), d + rest);
      SkipEach(small, slots, seen, f, vs[1..], d, rest);
    }
  }

  // ----- The structure as fields arrive ----------------------------------------------

  lemma MergeNothing(small: seq<Field>, s: seq<Slot>, full: seq<Field>, m: seq<Slot>)
    requires WellFormed(small) && Fits(small, s) && WellFormed(full) && Fits(full, m) && Sub(small, full)
    ensures MergeFields(small, s, full, m, 0) == s
  {
    forall i | 0 <= i < |small|
      ensures MergeAt(small, s, full, m, 0, i) == s[i]
    {
    }
  }

  /** A field that sends nothing, or that the receiver does not know. */
  lemma MergeSame(small: seq<Field>, s: seq<Slot>, full: seq<Field>, m: seq<Slot>, n: nat)
    requires WellFormed(small) && Fits(small, s) && WellFormed(full) && Fits(full, m) && Sub(small, full)
    requires n < |full| && FitsSlot(full[n], m[n])
    requires Present(full[n], m[n]) == [] || Find(small, full[n].tag).None?
    ensures MergeFields(small, s, full, m, n + 1) == MergeFields(small, s, full, m, n)
  {
    hide MergeAt, FitsSlot, WellFormed, Sub, Present, Find;
    forall i | 0 <= i < |small|
      ensures MergeAt(small, s, full, m, n + 1, i) == MergeAt(small, s, full, m, n, i)
    {
      MergeSameAt(small, s, full, m, n, i);
    }
  }

  lemma MergeSameAt(small: seq<Field>, s: seq<Slot>, full: seq<Field>, m: seq<Slot>, n: nat, i: nat)
    requires WellFormed(small) && Fits(small, s) && WellFormed(full) && Fits(full, m) && Sub(small, full)
    requires n < |full| && FitsSlot(full[n], m[n]) && i < |small|
    requires Present(full[n], m[n]) == [] || Find(small, full[n].tag).None?
    ensures MergeAt(small, s, full, m, n + 1, i) == MergeAt(small, s, full, m, n, i)
  {
    hide MergeSlot, WellFormed, Sub, Find, HasKind, Switched;
    var j := Source(small, full, i);
    if small[i].rule.Oneof? {
      SwitchedSame(small, full, m, small[i].rule.group, n);
    }
  }

  lemma SwitchedSame(small: seq<Field>, full: seq<Field>, m: seq<Slot>, group: nat, n: nat)
    requires Fits(full, m) && n < |full|
    requires !(full[n].rule == Oneof(group) && Chosen(m[n]) && Find(small, full[n].tag).Some?)
    ensures Switched(small, full, m, group, n + 1) == Switched(small, full, m, group, n)
  {
  }

  /** The other slots, when a field arrives in the slot at `at`. */
  lemma MergeOneAt(small: seq<Field>, s: seq<Slot>, full: seq<Field>, m: seq<Slot>, n: nat, at: nat, i: nat)
    requires WellFormed(small) && Fits(small, s) && WellFormed(full) && Fits(full, m) && Sub(small, full)
    requires n < |full| && FitsSlot(full[n], m[n]) && Present(full[n], m[n]) != [] && OneMember(full, m)
    requires at < |small| && Source(small, full, at) == n && FitsSlot(small[at], s[at])
    requires i < |small|
    ensures i == at ==>
      MergeAt(small, s, full, m, n + 1, i) == MergeSlot(small[at], s[at], full[n], Present(full[n], m[n]))
    ensures i == at && !small[at].rule.Oneof? ==> MergeAt(small, s, full, m, n, i) == s[i]
    ensures i != at && small[at].rule.Oneof? && small[i].rule == small[at].rule ==>
      MergeAt(small, s, full, m, n + 1, i) == Choice(None)
    ensures i != at && !(small[at].rule.Oneof? && small[i].rule == small[at].rule) ==>
      MergeAt(small, s, full, m, n + 1, i) == MergeAt(small, s, full, m, n, i)
  {
    var j := Source(small, full, i);
    if i == at {
      assert FitsSlot(small[i], s[i]);
    } else if small[i].rule.Oneof? {
      var g := small[i].rule.group;
      if small[at].rule == small[i].rule {
        assert full[n].rule == Oneof(g) && Chosen(m[n]) && Find(small, full[n].tag).Some?;
        assert Switched(small, full, m, g, n + 1);
        assert FitsSlot(full[j], m[j]) && !Chosen(m[j]);
      } else {
        SwitchedSame(small, full, m, g, n);
      }
    }
  }

  /** A field that arrives in the slot at `at`. */
  lemma MergeOne(small: seq<Field>, s: seq<Slot>, full: seq<Field>, m: seq<Slot>, n: nat, at: nat)
    requires WellFormed(small) && Fits(small, s) && WellFormed(full) && Fits(full, m) && Sub(small, full)
    requires n < |full| && FitsSlot(full[n], m[n]) && Present(full[n], m[n]) != [] && OneMember(full, m)
    requires at < |small| && Source(small, full, at) == n && FitsSlot(small[at], s[at])
    ensures var before := MergeFields(small, s, full, m, n);
      var slot := MergeSlot(small[at], s[at], full[n], Present(full[n], m[n]));
      MergeFields(small, s, full, m, n + 1) ==
        if small[at].rule.Oneof? then ClearGroup(small, before, small[at].rule.group)[at := slot]
        else before[at := slot]
    ensures !small[at].rule.Oneof? ==> MergeFields(small, s, full, m, n)[at] == s[at]
  {
    var before := MergeFields(small, s, full, m, n);
    var slot := MergeSlot(small[at], s[at], full[n], Present(full[n], m[n]));
    var after := if small[at].rule.Oneof? then ClearGroup(small, before, small[at].rule.group)[at := slot]
                 else before[at := slot];
    hide *;
    MergeOneAt(small, s, full, m, n, at, at);
    forall i | 0 <= i < |small|
      ensures MergeAt(small, s, full, m, n + 1, i) == after[i]
    {
      MergeOneAt(small, s, full, m, n, at, i);
    }
  }

  // ----- Room in new items -------------------------------------------------------------

  lemma {:induction false} SlotEncodes(fs: seq<Field>, slots: seq<Slot>, j: nat)
    requires Fits(fs, slots) && EncodeFields(fs, slots).Some? && j < |fs| && FitsSlot(fs[j], slots[j])
    ensures EncodeSlot(fs[j], slots[j]).Some?
    decreases j
  {
    if j > 0 {
      SlotEncodes(fs[1..], slots[1..], j - 1);
    }
  }

  /** An item that could be encoded has room in a fresh one. */
  lemma {:induction false} FreshRoom(k: Kind, init: Value, full: Kind, v: Value)
    requires GoodKind(k) && (!k.Submsg? ==> HasKind(k, init)) && GoodKind(full) && HasKind(full, v)
    requires SubKind(k, full) && EncodeValue(full, v).Some?
    ensures RoomValue(k, DefaultOf(k, init), full, v)
    decreases k
  {
    if k.Submsg? {
      var small, m := k.fields, v.slots;
      var s := Defaults(small);
      forall i | 0 <= i < |small|
        ensures RoomAt(small, s, full.fields, m, i)
      {
        var j := Source(small, full.fields, i);
        var f, g := small[i], full.fields[j];
        assert FitsSlot(g, m[j]) && s[i] == DefaultSlot(f);
        SlotEncodes(full.fields, m, j);
        var sent := Present(g, m[j]);
        if !f.rule.Repeated? && !f.rule.Oneof? && sent != [] {
          assert EncodeValue(g.kind, sent[0]).Some?;
          assert (k decreases to small) && (small decreases to f) && (f decreases to f.kind);
          FreshRoom(f.kind, f.init, g.kind, sent[0]);
        }
      }
    }
  }

  // ----- The whole message -----------------------------------------------------------------

  lemma {:induction false} ReadEncodedValue(k: Kind, cur: Value, full: Kind, v: Value, b: seq<byte>, rest: seq<byte>)
    requires GoodKind(k) && HasKind(k, cur) && GoodKind(full) && HasKind(full, v) && SubKind(k, full)
    requires EncodeValue(full, v) == Some(b) && |b| < W32 && CleanValue(full, v)
    ensures ReadValue(k, cur, b + rest) ==
      if RoomValue(k, cur, full, v) then Some((MergeValue(k, cur, full, v), rest)) else None
    decreases k, 0, 0
  {
    if !k.Submsg? {
      ReadEncodedScalar(k, v, b, rest);
    } else {
      var payload := EncodeFields(full.fields, v.slots).value;
      ReadEncodedRaw(payload, b, rest);
      DecodeEncoded(k.fields, cur.slots, full.fields, v.slots, payload);
    }
  }

  /** One more array item, behind a tag of its own. */
  lemma {:induction false} ReadItem(small: seq<Field>, slots: seq<Slot>, seen: set<nat>, at: nat,
                                    f: Field, v: Value, b: seq<byte>, rest: seq<byte>)
    requires WellFormed(small) && Fits(small, slots) && GoodField(f) && at < |small| && GoodField(small[at])
    requires Find(small, f.tag) == Some(at) && small[at].rule == f.rule && f.rule.Repeated?
    requires !Packable(small[at].kind) && SubKind(small[at].kind, f.kind) && FitsSlot(small[at], slots[at])
    requires HasKind(f.kind, v) && CleanValue(f.kind, v) && EncodeValue(f.kind, v) == Some(b) && |b| < W32
    ensures var slots' := slots[at := Many(slots[at].items + [Fresh(small[at], f.kind, v)])];
      && Fits(small, slots')
      && ReadFields(small, slots, seen, TagBytes(f, WireType(f.kind)) + (b + rest)) ==
        if |slots[at].items| < f.rule.max then ReadFields(small, slots', seen + {at}, rest) else None
    decreases small, 0
  {
    hide ReadFields, ReadValue;
    var g := small[at];
    assert (small decreases to g) && (g decreases to g.kind);
    FreshRoom(g.kind, g.init, f.kind, v);
    ReadEncodedValue(g.kind, DefaultOf(g.kind, g.init), f.kind, v, b, rest);
    ReadTagged(small, slots, seen, f, WireType(f.kind), at, b + rest);
    assert FitsSlot(g, Many(slots[at].items + [Fresh(g, f.kind, v)]));
  }

  /** Array items that are sent one by one. */
  lemma {:induction false} ReadEach(small: seq<Field>, slots: seq<Slot>, seen: set<nat>, at: nat,
                                    f: Field, vs: seq<Value>, b: seq<byte>, rest: seq<byte>)
    returns (seen': set<nat>)
    requires WellFormed(small) && Fits(small, slots) && GoodField(f) && at < |small| && GoodField(small[at])
    requires Find(small, f.tag) == Some(at) && small[at].rule == f.rule && f.rule.Repeated?
    requires !Packable(small[at].kind) && SubKind(small[at].kind, f.kind) && FitsSlot(small[at], slots[at])
    requires forall i :: 0 <= i < |vs| ==> HasKind(f.kind, vs[i]) && CleanValue(f.kind, vs[i])
    requires EncodeEach(f, vs) == Some(b) && |b| < W32
    ensures var items := slots[at].items +
        seq(|vs|, i requires 0 <= i < |vs| => Fresh(small[at], f.kind, vs[i]));
      && Fits(small, slots[at := Many(items)])
      && ReadFields(small, slots, seen, b + rest) ==
        if vs == [] || |items| <= f.rule.max then ReadFields(small, slots[at := Many(items)], seen', rest)
        else None
    ensures seen <= seen'
    decreases small, 1, |vs|
  {
    hide ReadFields, Fresh, SubKind;
    var g := small[at];
    var had := slots[at].items;
    var items := had + seq(|vs|, i requires 0 <= i < |vs| => Fresh(g, f.kind, vs[i]));
    if vs == [] {
      assert b + rest == rest && items == had && slots[at := Many(items)] == slots;
      seen' := seen;
    } else {
      var c := EncodeValue(f.kind, vs[0]).value;
      var d := EncodeEach(f, vs[1..]).value;
      assert b + rest == TagBytes(f, WireType(f.kind)) + (c + (d + rest));
      ReadItem(small, slots, seen, at, f, vs[0], c, d + rest);
      var slots' := slots[at := Many(had + [Fresh(g, f.kind, vs[0])])];
      assert FitsSlot(g, slots'[at]);
      seen' := ReadEach(small, slots', seen + {at}, at, f, vs[1..], d, rest);
      assert items == slots'[at].items + seq(|vs| - 1, i requires 0 <= i < |vs| - 1 => Fresh(g, f.kind, vs[1..][i]));
      assert slots'[at := Many(items)] == slots[at := Many(items)];
    }
  }

  /** A field with at most one item. */
  lemma {:induction false} ReadSingle(small: seq<Field>, slots: seq<Slot>, s: Slot, seen: set<nat>, at: nat,
                                      f: Field, v: Value, b: seq<byte>, rest: seq<byte>)
    requires WellFormed(small) && Fits(small, slots) && GoodField(f) && at < |small| && GoodField(small[at])
    requires Find(small, f.tag) == Some(at) && small[at].rule == f.rule && !f.rule.Repeated?
    requires SubKind(small[at].kind, f.kind) && FitsSlot(small[at], s)
    requires f.rule.Oneof? || slots[at] == s
    requires HasKind(f.kind, v) && CleanValue(f.kind, v)
    requires EncodeEach(f, [v]) == Some(b) && |b| < W32
    ensures var slot := MergeSlot(small[at], s, f, [v]);
      var slots' := if f.rule.Oneof? then ClearGroup(small, slots, f.rule.group)[at := slot] else slots[at := slot];
      && Fits(small, slots')
      && ReadFields(small, slots, seen, b + rest) ==
        if RoomSlot(small[at], s, f, [v]) then ReadFields(small, slots', seen + {at}, rest) else None
    decreases small, 1, 0
  {
    var g := small[at];
    var c := EncodeValue(f.kind, v).value;
    var wire := WireType(f.kind);
    assert EncodeEach(f, [v][1..]) == Some([]);
    assert b + rest == TagBytes(f, wire) + (c + rest);
    assert (small decreases to g) && (g decreases to g.kind);
    var cur := if f.rule.Oneof? then DefaultOf(g.kind, g.init) else s.v;
    if f.rule.Oneof? {
      FreshRoom(g.kind, g.init, f.kind, v);
    }
    ReadEncodedValue(g.kind, cur, f.kind, v, c, rest);
    ReadTagged(small, slots, seen, f, wire, at, c + rest);
  }

  /** A field that the receiver does not know is passed over. */
  lemma SkipSlot(small: seq<Field>, slots: seq<Slot>, seen: set<nat>, f: Field, sent: Slot, b: seq<byte>,
                 rest: seq<byte>)
    requires WellFormed(small) && Fits(small, slots) && GoodField(f) && Find(small, f.tag).None?
    requires FitsSlot(f, sent) && EncodeSlot(f, sent) == Some(b) && |b| < W32
    ensures ReadFields(small, slots, seen, b + rest) == ReadFields(small, slots, seen, rest)
  {
    hide ReadFields, EncodePacked;
    var vs := Present(f, sent);
    if f.rule.Repeated? && Packable(f.kind) && vs != [] {
      var p := EncodePacked(f.kind, vs).value;
      ReadEncodedRaw(p, Prefixed(p), rest);
      assert b + rest == TagBytes(f, DELIMITED) + (Prefixed(p) + rest);
      SkipTagged(small, slots, seen, f, DELIMITED, Prefixed(p) + rest, rest);
    } else {
      SkipEach(small, slots, seen, f, vs, b, rest);
    }
  }

  /** A field that the receiver knows is merged into its slot `s`. */
  lemma {:induction false} ReadKnown(small: seq<Field>, slots: seq<Slot>, s: Slot, seen: set<nat>, at: nat,
                                     f: Field, sent: Slot, b: seq<byte>, rest: seq<byte>)
    returns (seen': set<nat>)
    requires WellFormed(small) && Fits(small, slots) && GoodField(f) && at < |small| && GoodField(small[at])
    requires Find(small, f.tag) == Some(at) && small[at].rule == f.rule && SubKind(small[at].kind, f.kind)
    requires FitsSlot(small[at], s) && (f.rule.Oneof? || slots[at] == s)
    requires FitsSlot(f, sent) && CleanSlot(f, sent) && Present(f, sent) != []
    requires EncodeSlot(f, sent) == Some(b) && |b| < W32
    ensures var slot := MergeSlot(small[at], s, f, Present(f, sent));
      var slots' := if f.rule.Oneof? then ClearGroup(small, slots, f.rule.group)[at := slot] else slots[at := slot];
      && Fits(small, slots')
      && ReadFields(small, slots, seen, b + rest) ==
        if RoomSlot(small[at], s, f, Present(f, sent)) then ReadFields(small, slots', seen', rest) else None
    ensures seen <= seen'
    ensures !f.rule.Repeated? ==> at in seen'
    decreases small, 2, 0
  {
    hide ReadFields, EncodePacked;
    var vs := Present(f, sent);
    seen' := seen + {at};
    if !f.rule.Repeated? {
      assert vs == [vs[0]];
      ReadSingle(small, slots, s, seen, at, f, vs[0], b, rest);
    } else if Packable(f.kind) {
      FreshScalars(small[at], f.kind, vs);
      ReadPackedSlot(small, slots, seen, at, f, vs, b, rest);
    } else {
      seen' := ReadEach(small, slots, seen, at, f, vs, b, rest);
    }
  }

  /** The bytes of the field at `n` take the structure from `n` fields received to `n + 1`. */
  lemma {:induction false} ReadSlot(small: seq<Field>, s: seq<Slot>, full: seq<Field>, m: seq<Slot>, n: nat,
                                    seen: set<nat>, b: seq<byte>, rest: seq<byte>)
    returns (seen': set<nat>)
    requires WellFormed(small) && Fits(small, s) && WellFormed(full) && Fits(full, m) && Sub(small, full)
    requires n < |full| && FitsSlot(full[n], m[n]) && CleanSlot(full[n], m[n]) && OneMember(full, m)
    requires EncodeSlot(full[n], m[n]) == Some(b) && |b| < W32
    ensures ReadFields(small, MergeFields(small, s, full, m, n), seen, b + rest) ==
      if (forall i :: 0 <= i < |small| && Source(small, full, i) == n ==> RoomAt(small, s, full, m, i))
      then ReadFields(small, MergeFields(small, s, full, m, n + 1), seen', rest)
      else None
    ensures seen <= seen'
    ensures forall i :: 0 <= i < |small| && Source(small, full, i) == n && small[i].rule.Required? ==> i in seen'
    decreases small, 3, 0
  {
    var f := full[n];
    assert GoodField(f) && (Present(f, m[n]) == [] ==> b == []);
    hide ReadFields, EncodeSlot, MergeAt;
    var before := MergeFields(small, s, full, m, n);
    seen' := seen;
    if Present(f, m[n]) == [] {
      assert b + rest == rest;
      MergeSame(small, s, full, m, n);
    } else if Find(small, f.tag).None? {
      MergeSame(small, s, full, m, n);
      SkipSlot(small, before, seen, f, m[n], b, rest);
    } else {
      var at := Find(small, f.tag).value;
      assert Find(full, f.tag) == Some(n);
      assert Source(small, full, at) == n && FitsSlot(small[at], s[at]);
      assert forall i :: 0 <= i < |small| && Source(small, full, i) == n ==> i == at;
      MergeOne(small, s, full, m, n, at);
      seen' := ReadKnown(small, before, s[at], seen, at, f, m[n], b, rest);
    }
  }

  lemma ReadPackedField(small: seq<Field>, slots: seq<Slot>, at: nat, f: Field, vs: seq<Value>, p: seq<byte>,
                        rest: seq<byte>)
    requires WellFormed(small) && Fits(small, slots) && at < |small| && GoodField(small[at])
    requires small[at].rule == f.rule && f.rule.Repeated? && Packable(f.kind) && small[at].kind == f.kind
    requires FitsSlot(small[at], slots[at])
    requires vs != [] && forall i :: 0 <= i < |vs| ==> HasKind(f.kind, vs[i])
    requires EncodePacked(f.kind, vs) == Some(p) && |p| < W32
    ensures ReadField(small, slots, at, DELIMITED, Prefixed(p) + rest) ==
      if |slots[at].items| + |vs| <= f.rule.max then Some((slots[at := Many(slots[at].items + vs)], rest))
      else None
  {
    hide ReadFields, ReadScalar, Delimited;
    ReadEncodedRaw(p, Prefixed(p), rest);
    ReadPackedItems(f.kind, slots[at].items, f.rule.max, vs, p);
  }

  lemma ReadPackedSlot(small: seq<Field>, slots: seq<Slot>, seen: set<nat>, at: nat,
                       f: Field, vs: seq<Value>, b: seq<byte>, rest: seq<byte>)
    requires WellFormed(small) && Fits(small, slots) && GoodField(f) && at < |small| && GoodField(small[at])
    requires Find(small, f.tag) == Some(at) && small[at].rule == f.rule && f.rule.Repeated?
    requires Packable(f.kind) && small[at].kind == f.kind && FitsSlot(small[at], slots[at])
    requires vs != [] && forall i :: 0 <= i < |vs| ==> HasKind(f.kind, vs[i])
    requires EncodePacked(f.kind, vs).Some? && |b| < W32
    requires b == TagBytes(f, DELIMITED) + Prefixed(EncodePacked(f.kind, vs).value)
    ensures var slot := Many(slots[at].items + vs);
      && Fits(small, slots[at := slot])
      && ReadFields(small, slots, seen, b + rest) ==
        if |slots[at].items| + |vs| <= f.rule.max then ReadFields(small, slots[at := slot], seen + {at}, rest)
        else None
  {
    hide ReadFields, ReadField, EncodePacked;
    var p := EncodePacked(f.kind, vs).value;
    assert b + rest == TagBytes(f, DELIMITED) + (Prefixed(p) + rest);
    ReadPackedField(small, slots, at, f, vs, p, rest);
    ReadTagged(small, slots, seen, f, DELIMITED, at, Prefixed(p) + rest);
    var slot := Many(slots[at].items + vs);
    assert FitsSlot(small[at], slot);
  }

  lemma FreshScalars(f: Field, full: Kind, vs: seq<Value>)
    requires GoodField(f) && GoodKind(full) && SubKind(f.kind, full) && !f.kind.Submsg?
    requires forall i :: 0 <= i < |vs| ==> HasKind(full, vs[i])
    ensures seq(|vs|, i requires 0 <= i < |vs| => Fresh(f, full, vs[i])) == vs
  {
    assert forall i :: 0 <= i < |vs| ==> Fresh(f, full, vs[i]) == vs[i];
  }

  lemma {:induction false} ReadSuffix(small: seq<Field>, s: seq<Slot>, full: seq<Field>, m: seq<Slot>, n: nat,
                                      seen: set<nat>, b: seq<byte>)
    returns (seen': set<nat>)
    requires WellFormed(small) && Fits(small, s) && WellFormed(full) && Fits(full, m) && Sub(small, full)
    requires n <= |full| && Clean(full, m)
    requires Fits(full[n..], m[n..]) && EncodeFields(full[n..], m[n..]) == Some(b) && |b| < W32
    ensures ReadFields(small, MergeFields(small, s, full, m, n), seen, b) ==
      if Room(small, s, full, m, n)
      then Some(Outcome(MergeFields(small, s, full, m, |full|), seen', true, []))
      else None
    ensures seen <= seen'
    ensures forall i :: 0 <= i < |small| && Source(small, full, i) >= n && small[i].rule.Required? ==> i in seen'
    decreases small, 4, |full| - n
  {
    if n == |full| {
      seen' := seen;
    } else {
      assert full[n..][1..] == full[n + 1..] && m[n..][1..] == m[n + 1..];
      assert FitsSlot(full[n], m[n]) && CleanSlot(full[n], m[n]);
      var c := EncodeSlot(full[n], m[n]).value;
      var d := EncodeFields(full[n + 1..], m[n + 1..]).value;
      var next := ReadSlot(small, s, full, m, n, seen, c, d);
      seen' := ReadSuffix(small, s, full, m, n + 1, next, d);
    }
  }

  /** Decoding an encoded message into a structure merges it, or fails exactly when some array
      has no room for what is appended to it. */
  lemma {:induction false} DecodeEncoded(small: seq<Field>, s: seq<Slot>, full: seq<Field>, m: seq<Slot>, b: seq<byte>)
    requires WellFormed(small) && Fits(small, s) && WellFormed(full) && Fits(full, m) && Sub(small, full)
    requires Clean(full, m) && EncodeFields(full, m) == Some(b) && |b| < W32
    ensures DecodeInto(small, s, b) ==
      if Room(small, s, full, m, 0) then Some(MergeFields(small, s, full, m, |full|)) else None
    ensures ReadFields(small, s, {}, b).Some? == Whole(small, s, b) == Room(small, s, full, m, 0)
    decreases small, 5, 0
  {
    MergeNothing(small, s, full, m);
    assert full[0..] == full && m[0..] == m;
    var seen := ReadSuffix(small, s, full, m, 0, {}, b);
  }
}
