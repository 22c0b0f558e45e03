/** Round trips and unknown fields. */
module PbRoundTrip {
  import opened Wrappers
  import opened PbWire
  import opened PbSchema
  import opened PbEncoding
  import opened PbDecoding
  import opened PbExchange
  import opened PbDelivery

  // ----- Holding what was sent -----------------------------------------------------

  predicate CarriedValue(k: Kind, got: Value, full: Kind, v: Value)
    requires GoodKind(k) && HasKind(k, got) && GoodKind(full) && HasKind(full, v) && SubKind(k, full)
    decreases k
  {
    if k.Submsg? then Carried(k.fields, got.slots, full.fields, v.slots) else got == v
  }

  predicate CarriedSlot(f: Field, got: Slot, full: Field, sent: seq<Value>)
    requires GoodField(f) && FitsSlot(f, got) && GoodField(full) && SubKind(f.kind, full.kind)
    requires forall i :: 0 <= i < |sent| ==> HasKind(full.kind, sent[i])
    decreases f
  {
    if sent == [] then got == DefaultSlot(f)
    else
      match f.rule
      case Repeated(_) =>
        && |got.items| == |sent|
        && forall i :: 0 <= i < |sent| ==> CarriedValue(f.kind, got.items[i], full.kind, sent[i])
      case Oneof(_) => got.which.Some? && CarriedValue(f.kind, got.which.value, full.kind, sent[0])
      case Optional => got.has && CarriedValue(f.kind, got.v, full.kind, sent[0])
      case _ => CarriedValue(f.kind, got.v, full.kind, sent[0])
  }

  /** `got` holds, at every depth, exactly the values of `m` whose fields it knows, and the
      defaults where nothing was sent. */
  predicate Carried(small: seq<Field>, got: seq<Slot>, full: seq<Field>, m: seq<Slot>)
    requires WellFormed(small) && Fits(small, got) && WellFormed(full) && Fits(full, m) && Sub(small, full)
    decreases small
  {
    forall i :: 0 <= i < |small| ==>
      var j := Source(small, full, i);
      assert FitsSlot(small[i], got[i]) && FitsSlot(full[j], m[j]);
      CarriedSlot(small[i], got[i], full[j], Present(full[j], m[j]))
  }

  lemma {:induction false} FreshIsCarried(k: Kind, init: Value, full: Kind, v: Value)
    requires GoodKind(k) && (!k.Submsg? ==> HasKind(k, init)) && GoodKind(full) && HasKind(full, v)
    requires SubKind(k, full)
    ensures CarriedValue(k, MergeValue(k, DefaultOf(k, init), full, v), full, v)
    decreases k
  {
    if k.Submsg? {
      MergedIsCarried(k.fields, full.fields, v.slots);
    }
  }

  lemma {:induction false} SlotIsCarried(f: Field, full: Field, sent: seq<Value>)
    requires GoodField(f) && GoodField(full) && SubKind(f.kind, full.kind)
    requires forall i :: 0 <= i < |sent| ==> HasKind(full.kind, sent[i])
    ensures CarriedSlot(f, MergeSlot(f, DefaultSlot(f), full, sent), full, sent)
    decreases f
  {
    forall i | 0 <= i < |sent|
      ensures CarriedValue(f.kind, MergeValue(f.kind, DefaultOf(f.kind, f.init), full.kind, sent[i]), full.kind,
        sent[i])
    {
      FreshIsCarried(f.kind, f.init, full.kind, sent[i]);
    }
  }

  lemma {:induction false} MergedIsCarried(small: seq<Field>, full: seq<Field>, m: seq<Slot>)
    requires WellFormed(small) && WellFormed(full) && Fits(full, m) && Sub(small, full)
    ensures Carried(small, MergeFields(small, Defaults(small), full, m, |full|), full, m)
    decreases small
  {
    var s := Defaults(small);
    var got := MergeFields(small, s, full, m, |full|);
    forall i | 0 <= i < |small|
      ensures var j := Source(small, full, i);
        && FitsSlot(small[i], got[i]) && FitsSlot(full[j], m[j])
        && CarriedSlot(small[i], got[i], full[j], Present(full[j], m[j]))
    {
      var j := Source(small, full, i);
      assert FitsSlot(small[i], s[i]) && FitsSlot(full[j], m[j]) && s[i] == DefaultSlot(small[i]);
      SlotIsCarried(small[i], full[j], Present(full[j], m[j]));
    }
  }

  /** A receiver that knows only some of the fields, at any depth, accepts every encoded message
      and ends up with exactly the values it knows. */
  lemma UnknownFields(small: seq<Field>, full: seq<Field>, m: seq<Slot>, b: seq<byte>)
    requires WellFormed(small) && WellFormed(full) && Sub(small, full)
    requires Fits(full, m) && Clean(full, m) && EncodeFields(full, m) == Some(b) && |b| < W32
    ensures Decode(small, b).Some? && Carried(small, Decode(small, b).value, full, m)
  {
    FreshRoom(Submsg(small), Num(0), Submsg(full), Msg(m));
    DecodeEncoded(small, Defaults(small), full, m, b);
    MergedIsCarried(small, full, m);
  }

  lemma {:induction false} SubKindSelf(k: Kind)
    requires GoodKind(k)
    ensures SubKind(k, k)
    decreases k
  {
    if k.Submsg? {
      SubSelf(k.fields);
    }
  }

  lemma {:induction false} SubSelf(fs: seq<Field>)
    requires WellFormed(fs)
    ensures Sub(fs, fs)
    decreases fs
  {
    forall i | 0 <= i < |fs|
      ensures Knows(fs[i], fs)
    {
      assert GoodField(fs[i]) && Find(fs, fs[i].tag) == Some(i);
      assert (fs decreases to fs[i]) && (fs[i] decreases to fs[i].kind);
      SubKindSelf(fs[i].kind);
    }
  }

  // ----- Structures without leftovers ------------------------------------------------

  predicate SettledValue(k: Kind, v: Value)
    requires GoodKind(k) && HasKind(k, v)
    decreases k
  {
    k.Submsg? ==> Settled(k.fields, v.slots)
  }

  predicate SettledSlot(f: Field, s: Slot)
    requires GoodField(f) && FitsSlot(f, s)
    decreases f
  {
    && (Present(f, s) == [] ==> s == DefaultSlot(f))
    && forall i :: 0 <= i < |Present(f, s)| ==> SettledValue(f.kind, Present(f, s)[i])
  }

  /** Whatever is not sent holds its default. */
  predicate Settled(fs: seq<Field>, m: seq<Slot>)
    requires WellFormed(fs) && Fits(fs, m)
    decreases fs
  {
    forall i :: 0 <= i < |fs| ==> FitsSlot(fs[i], m[i]) && GoodField(fs[i]) && SettledSlot(fs[i], m[i])
  }

  lemma {:induction false} CarriedValueSame(k: Kind, got: Value, v: Value)
    requires GoodKind(k) && HasKind(k, got) && HasKind(k, v) && SubKind(k, k)
    requires CarriedValue(k, got, k, v) && SettledValue(k, v)
    ensures got == v
    decreases k
  {
    if k.Submsg? {
      CarriedSame(k.fields, got.slots, v.slots);
    }
  }

  lemma {:induction false} CarriedSame(fs: seq<Field>, got: seq<Slot>, m: seq<Slot>)
    requires WellFormed(fs) && Fits(fs, got) && Fits(fs, m) && Sub(fs, fs)
    requires Carried(fs, got, fs, m) && Settled(fs, m)
    ensures got == m
    decreases fs
  {
    forall i | 0 <= i < |fs|
      ensures got[i] == m[i]
    {
      var f := fs[i];
      assert Source(fs, fs, i) == i && FitsSlot(f, got[i]) && FitsSlot(f, m[i]);
      assert CarriedSlot(f, got[i], f, Present(f, m[i])) && SettledSlot(f, m[i]);
      assert (fs decreases to f) && (f decreases to f.kind);
      CarriedSlotSame(f, got[i], m[i]);
    }
  }

  lemma {:induction false} CarriedSlotSame(f: Field, got: Slot, s: Slot)
    requires GoodField(f) && FitsSlot(f, got) && FitsSlot(f, s) && SubKind(f.kind, f.kind)
    requires CarriedSlot(f, got, f, Present(f, s)) && SettledSlot(f, s)
    ensures got == s
    decreases f
  {
    var sent := Present(f, s);
    if sent != [] {
      if f.rule.Repeated? {
        forall i | 0 <= i < |sent|
          ensures got.items[i] == sent[i]
        {
          CarriedValueSame(f.kind, got.items[i], sent[i]);
        }
        assert got.items == s.items;
      } else {
        CarriedValueSame(f.kind, if f.rule.Oneof? then got.which.value else got.v, sent[0]);
      }
    }
  }

  /** Decoding what was encoded gives back every value sent, at every depth; when the message
      holds nothing that is not sent, it gives back the message. */
  lemma RoundTrip(fs: seq<Field>, m: seq<Slot>, b: seq<byte>)
    requires WellFormed(fs) && Fits(fs, m) && Clean(fs, m)
    requires EncodeFields(fs, m) == Some(b) && |b| < W32
    ensures Sub(fs, fs) && Decode(fs, b).Some? && Carried(fs, Decode(fs, b).value, fs, m)
    ensures Settled(fs, m) ==> Decode(fs, b) == Some(m)
  {
    SubSelf(fs);
    UnknownFields(fs, fs, m, b);
    if Settled(fs, m) {
      CarriedSame(fs, Decode(fs, b).value, m);
    }
  }
}
