/** No input makes the decoder leave the bounds of the structure it fills
    (nanopb/pb_decode.c:356-429, 1165-1379). */
module PbBounds {
  import opened Wrappers
  import opened PbWire
  import opened PbSchema
  import opened PbEncoding
  import opened PbDecoding

  predicate BoundedValue(k: Kind, v: Value)
    requires HasKind(k, v)
    decreases k
  {
    if k.Submsg? then Bounded(k.fields, v.slots) else ScalarInBounds(k, v)
  }

  predicate BoundedSlot(f: Field, s: Slot)
    requires FitsSlot(f, s)
    decreases f
  {
    match s
    case One(v) => BoundedValue(f.kind, v)
    case Maybe(_, v) => BoundedValue(f.kind, v)
    case Many(items) =>
      && (f.rule.Repeated? ==> |items| <= f.rule.max)
      && forall i :: 0 <= i < |items| ==> BoundedValue(f.kind, items[i])
    case Choice(which) => which.Some? ==> BoundedValue(f.kind, which.value)
  }

  /** Array counts, byte arrays and strings stay within their buffers, at every depth, and a
      union has at most one current member. */
  predicate Bounded(fs: seq<Field>, slots: seq<Slot>)
    requires Fits(fs, slots)
    decreases fs
  {
    && (forall i :: 0 <= i < |fs| ==> FitsSlot(fs[i], slots[i]) && BoundedSlot(fs[i], slots[i]))
    && OneMember(fs, slots)
  }

  lemma {:induction false} DefaultIsBounded(k: Kind, init: Value)
    requires GoodKind(k) && (!k.Submsg? ==> HasKind(k, init) && ScalarInBounds(k, init))
    ensures BoundedValue(k, DefaultOf(k, init))
    decreases k
  {
    if k.Submsg? {
      DefaultsAreBounded(k.fields);
    }
  }

  lemma {:induction false} DefaultsAreBounded(fs: seq<Field>)
    requires WellFormed(fs)
    ensures Bounded(fs, Defaults(fs))
    decreases fs
  {
    var slots := Defaults(fs);
    forall i | 0 <= i < |fs|
      ensures FitsSlot(fs[i], slots[i]) && BoundedSlot(fs[i], slots[i])
    {
      var f := fs[i];
      assert GoodField(f);
      assert (fs decreases to f) && (f decreases to f.kind);
      DefaultIsBounded(f.kind, f.init);
    }
  }

  lemma {:induction false} ReadValueBounded(k: Kind, cur: Value, b: seq<byte>)
    requires GoodKind(k) && HasKind(k, cur) && BoundedValue(k, cur) && ReadValue(k, cur, b).Some?
    ensures BoundedValue(k, ReadValue(k, cur, b).value.0)
    decreases k, |b|, 0
  {
    if k.Submsg? {
      var (payload, rest) := Delimited(b).value;
      DecodeKeepsBounds(k.fields, cur.slots, payload);
    }
  }

  lemma {:induction false} ReadFieldBounded(fs: seq<Field>, slots: seq<Slot>, at: nat, wire: nat, b: seq<byte>)
    requires WellFormed(fs) && Fits(fs, slots) && at < |fs| && Bounded(fs, slots)
    requires ReadField(fs, slots, at, wire, b).Some?
    ensures Bounded(fs, ReadField(fs, slots, at, wire, b).value.0)
    decreases fs, |b|, 0
  {
    var f := fs[at];
    var r := ReadField(fs, slots, at, wire, b).value.0;
    assert GoodField(f) && FitsSlot(f, slots[at]) && BoundedSlot(f, slots[at]);
    assert (fs decreases to f) && (f decreases to f.kind);
    if f.rule.Repeated? && wire == DELIMITED && Packable(f.kind) {
    } else {
      var anew := f.rule.Repeated? || f.rule.Oneof?;
      if anew {
        DefaultIsBounded(f.kind, f.init);
      }
      ReadValueBounded(f.kind, if anew then DefaultOf(f.kind, f.init) else slots[at].v, b);
    }
    assert FitsSlot(f, r[at]) && BoundedSlot(f, r[at]);
    forall i | 0 <= i < |fs|
      ensures FitsSlot(fs[i], r[i]) && BoundedSlot(fs[i], r[i])
    {
      assert FitsSlot(fs[i], slots[i]) && BoundedSlot(fs[i], slots[i]);
    }
  }

  lemma {:induction false} ReadFieldsBounded(fs: seq<Field>, slots: seq<Slot>, seen: set<nat>, b: seq<byte>)
    requires WellFormed(fs) && Fits(fs, slots) && Bounded(fs, slots) && ReadFields(fs, slots, seen, b).Some?
    ensures Bounded(fs, ReadFields(fs, slots, seen, b).value.slots)
    decreases fs, |b|, 1
  {
    hide ReadField, Bounded;
    if b != [] && ReadTag(b).Tag? {
      var t := ReadTag(b);
      match Find(fs, t.tag)
      case Some(at) =>
        var (slots', rest) := ReadField(fs, slots, at, t.wire, t.rest).value;
        ReadFieldBounded(fs, slots, at, t.wire, t.rest);
        ReadFieldsBounded(fs, slots', seen + {at}, rest);
      case None =>
        ReadFieldsBounded(fs, slots, seen, Skip(t.wire, t.rest).value);
    }
  }

  /** Whatever the input, a decode that succeeds stays in bounds. */
  lemma {:induction false} DecodeKeepsBounds(fs: seq<Field>, slots: seq<Slot>, b: seq<byte>)
    requires WellFormed(fs) && Fits(fs, slots) && Bounded(fs, slots) && DecodeInto(fs, slots, b).Some?
    ensures Bounded(fs, DecodeInto(fs, slots, b).value)
    decreases fs, |b|, 2
  {
    ReadFieldsBounded(fs, slots, {}, b);
  }

  lemma {:induction false} BoundedEach(f: Field, vs: seq<Value>)
    requires forall i :: 0 <= i < |vs| ==> HasKind(f.kind, vs[i]) && BoundedValue(f.kind, vs[i])
    ensures EncodeEach(f, vs).Some?
    ensures EncodePacked(f.kind, vs).Some?
    decreases f, |vs|
  {
    if vs != [] {
      if f.kind.Submsg? {
        BoundedEncodes(f.kind.fields, vs[0].slots);
      }
      BoundedEach(f, vs[1..]);
    }
  }

  lemma {:induction false} BoundedEncodes(fs: seq<Field>, slots: seq<Slot>)
    requires Fits(fs, slots) && Bounded(fs, slots)
    ensures EncodeFields(fs, slots).Some?
    decreases fs
  {
    if fs != [] {
      var f := fs[0];
      assert FitsSlot(f, slots[0]) && BoundedSlot(f, slots[0]);
      BoundedEach(f, Present(f, slots[0]));
      assert forall i :: 0 <= i < |fs| - 1 ==>
        FitsSlot(fs[1..][i], slots[1..][i]) && BoundedSlot(fs[1..][i], slots[1..][i]);
      BoundedEncodes(fs[1..], slots[1..]);
    }
  }

  /** Every input that decodes gives a structure that the encoder accepts. */
  lemma DecodedCanBeEncoded(fs: seq<Field>, b: seq<byte>)
    requires WellFormed(fs) && Decode(fs, b).Some?
    ensures EncodeFields(fs, Decode(fs, b).value).Some? && Bounded(fs, Decode(fs, b).value)
  {
    DefaultsAreBounded(fs);
    DecodeKeepsBounds(fs, Defaults(fs), b);
    BoundedEncodes(fs, Decode(fs, b).value);
  }
}
