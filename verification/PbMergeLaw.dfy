/** Decoding two inputs one after the other, and both at once (nanopb/pb_decode.h:70-79). */
module PbMergeLaw {
  import opened Wrappers
  import opened PbWire
  import opened PbSchema
  import opened PbEncoding
  import opened PbDecoding
  import opened PbExchange
  import opened PbDelivery
  import opened PbRoundTrip

  // ----- Reading a field does not look past it -------------------------------------

  lemma ReadScalarExtend(k: Kind, b: seq<byte>, tail: seq<byte>)
    requires !k.Submsg? && ReadScalar(k, b).Some?
    ensures ReadScalar(k, b + tail) == Some((ReadScalar(k, b).value.0, ReadScalar(k, b).value.1 + tail))
  {
    match k
    case VarintKind(_) => GroupsExtend(b, LEN64, tail);
    case UVarintKind(_) => GroupsExtend(b, LEN64, tail);
    case SVarintKind(_) => GroupsExtend(b, LEN64, tail);
    case Fixed32 => TakeExtend(b, 4, tail);
    case Fixed64 => TakeExtend(b, 8, tail);
    case Bytes(_) => RawExtend(b, tail);
    case Str(_) => RawExtend(b, tail);
    case FixedBytes(_) => RawExtend(b, tail);
  }

  lemma RawExtend(b: seq<byte>, tail: seq<byte>)
    requires Scan32(b).Scan?
    ensures Scan32(b + tail) == Scan(Scan32(b).value, Scan32(b).rest + tail)
    ensures var s := Scan32(b);
      s.value <= |s.rest| ==>
        Take(s.rest + tail, s.value) == Some((s.rest[..s.value], s.rest[s.value..] + tail))
  {
    GroupsExtend(b, LEN32, tail);
    var s := Scan32(b);
    if s.value <= |s.rest| {
      TakeExtend(s.rest, s.value, tail);
    }
  }

  lemma ReadValueExtend(k: Kind, cur: Value, b: seq<byte>, tail: seq<byte>)
    requires GoodKind(k) && HasKind(k, cur) && ReadValue(k, cur, b).Some?
    ensures ReadValue(k, cur, b + tail) ==
      Some((ReadValue(k, cur, b).value.0, ReadValue(k, cur, b).value.1 + tail))
  {
    if k.Submsg? {
      DelimitedExtend(b, tail);
    } else {
      ReadScalarExtend(k, b, tail);
    }
  }

  lemma ReadFieldExtend(fs: seq<Field>, slots: seq<Slot>, at: nat, wire: nat, b: seq<byte>, tail: seq<byte>)
    requires WellFormed(fs) && Fits(fs, slots) && at < |fs| && ReadField(fs, slots, at, wire, b).Some?
    ensures ReadField(fs, slots, at, wire, b + tail) ==
      Some((ReadField(fs, slots, at, wire, b).value.0, ReadField(fs, slots, at, wire, b).value.1 + tail))
  {
    var f := fs[at];
    assert GoodField(f) && FitsSlot(f, slots[at]);
    if f.rule.Repeated? && wire == DELIMITED && Packable(f.kind) {
      DelimitedExtend(b, tail);
    } else {
      var cur := if f.rule.Repeated? || f.rule.Oneof? then DefaultOf(f.kind, f.init) else slots[at].v;
      ReadValueExtend(f.kind, cur, b, tail);
    }
  }

  // ----- What a reader takes is all it needs -----------------------------------------

  /** The part of `b` in front of `rest`. */
  function Front(b: seq<byte>, rest: seq<byte>): seq<byte>
    requires |rest| <= |b|
  {
    b[..|b| - |rest|]
  }

  /** `rest` is the end of `b`. */
  predicate EndOf(b: seq<byte>, rest: seq<byte>) {
    |rest| <= |b| && b == Front(b, rest) + rest
  }

  lemma {:induction false} GroupsCut(b: seq<byte>, limit: nat)
    requires Groups(b, limit).Scan?
    ensures var s := Groups(b, limit);
      EndOf(b, s.rest) && Groups(Front(b, s.rest), limit) == Scan(s.value, [])
    decreases limit
  {
    if b[0] >= 128 {
      GroupsCut(b[1..], limit - 1);
      var rest := Groups(b, limit).rest;
      assert Front(b, rest)[1..] == Front(b[1..], rest);
      assert b == [b[0]] + b[1..];
    }
  }

  lemma {:induction false} SkipVarintCut(b: seq<byte>)
    requires SkipVarint(b).Some?
    ensures var rest := SkipVarint(b).value;
      EndOf(b, rest) && SkipVarint(Front(b, rest)) == Some([])
    decreases |b|
  {
    if b[0] >= 128 {
      SkipVarintCut(b[1..]);
      var rest := SkipVarint(b).value;
      assert Front(b, rest)[1..] == Front(b[1..], rest);
      assert b == [b[0]] + b[1..];
    }
  }

  lemma TakeWhole(b: seq<byte>)
    ensures Take(b, |b|) == Some((b, []))
  {
    assert b[..|b|] == b;
  }

  /** A length and that many bytes. */
  lemma SizedCut(b: seq<byte>)
    requires Scan32(b).Scan? && Scan32(b).value <= |Scan32(b).rest|
    ensures var s := Scan32(b);
      var rest := s.rest[s.value..];
      && EndOf(b, rest)
      && Scan32(Front(b, rest)) == Scan(s.value, s.rest[..s.value])
  {
    GroupsCut(b, LEN32);
    var s := Scan32(b);
    var head, payload, rest := Front(b, s.rest), s.rest[..s.value], s.rest[s.value..];
    assert Front(b, rest) == head + payload;
    GroupsExtend(head, LEN32, payload);
    assert [] + payload == payload;
  }

  lemma DelimitedCut(b: seq<byte>)
    requires Delimited(b).Some?
    ensures var d := Delimited(b).value;
      EndOf(b, d.1) && Delimited(Front(b, d.1)) == Some((d.0, []))
  {
    SizedCut(b);
    TakeWhole(Delimited(b).value.0);
  }

  lemma SkipCut(wire: nat, b: seq<byte>)
    requires Skip(wire, b).Some?
    ensures var rest := Skip(wire, b).value;
      EndOf(b, rest) && Skip(wire, Front(b, rest)) == Some([])
  {
    if wire == VARINT {
      SkipVarintCut(b);
    } else if wire == DELIMITED {
      DelimitedCut(b);
    }
  }

  lemma ReadTagCut(b: seq<byte>)
    requires ReadTag(b).Tag?
    ensures var t := ReadTag(b);
      EndOf(b, t.rest) && ReadTag(Front(b, t.rest)) == t.(rest := [])
  {
    GroupsCut(b, LEN32);
  }

  lemma ReadScalarCut(k: Kind, b: seq<byte>)
    requires !k.Submsg? && ReadScalar(k, b).Some?
    ensures var r := ReadScalar(k, b).value;
      EndOf(b, r.1) && ReadScalar(k, Front(b, r.1)) == Some((r.0, []))
  {
    match k
    case VarintKind(_) => GroupsCut(b, LEN64);
    case UVarintKind(_) => GroupsCut(b, LEN64);
    case SVarintKind(_) => GroupsCut(b, LEN64);
    case Fixed32 =>
      assert Front(b, b[4..]) == b[..4] && b[..4][..4] == b[..4];
    case Fixed64 =>
      assert Front(b, b[8..]) == b[..8] && b[..8][..8] == b[..8];
    case Bytes(_) => RawCut(b);
    case Str(_) => RawCut(b);
    case FixedBytes(_) => RawCut(b);
  }

  lemma RawCut(b: seq<byte>)
    requires Scan32(b).Scan?
    ensures Scan32(b).value == 0 ==>
      EndOf(b, Scan32(b).rest) && Scan32(Front(b, Scan32(b).rest)) == Scan(0, [])
    ensures var s := Scan32(b);
      s.value <= |s.rest| ==>
        && EndOf(b, s.rest[s.value..])
        && Scan32(Front(b, s.rest[s.value..])) == Scan(s.value, s.rest[..s.value])
        && Take(s.rest[..s.value], s.value) == Some((s.rest[..s.value], []))
  {
    GroupsCut(b, LEN32);
    if Scan32(b).value <= |Scan32(b).rest| {
      SizedCut(b);
      TakeWhole(Scan32(b).rest[..Scan32(b).value]);
    }
  }

  lemma ReadValueCut(k: Kind, cur: Value, b: seq<byte>)
    requires GoodKind(k) && HasKind(k, cur) && ReadValue(k, cur, b).Some?
    ensures var r := ReadValue(k, cur, b).value;
      EndOf(b, r.1) && ReadValue(k, cur, Front(b, r.1)) == Some((r.0, []))
  {
    if k.Submsg? {
      DelimitedCut(b);
    } else {
      ReadScalarCut(k, b);
    }
  }

  lemma ReadFieldCut(fs: seq<Field>, slots: seq<Slot>, at: nat, wire: nat, b: seq<byte>)
    requires WellFormed(fs) && Fits(fs, slots) && at < |fs| && ReadField(fs, slots, at, wire, b).Some?
    ensures var r := ReadField(fs, slots, at, wire, b).value;
      EndOf(b, r.1) && ReadField(fs, slots, at, wire, Front(b, r.1)) == Some((r.0, []))
  {
    var f := fs[at];
    assert GoodField(f) && FitsSlot(f, slots[at]);
    if f.rule.Repeated? && wire == DELIMITED && Packable(f.kind) {
      DelimitedCut(b);
    } else {
      var cur := if f.rule.Repeated? || f.rule.Oneof? then DefaultOf(f.kind, f.init) else slots[at].v;
      ReadValueCut(f.kind, cur, b);
    }
  }

  // ----- The field loop ---------------------------------------------------------------

  /** The loop over `a + b` goes on with `b` where the loop over `a` stops. */
  lemma {:induction false} ReadFieldsConcat(fs: seq<Field>, slots: seq<Slot>, seen: set<nat>, a: seq<byte>,
                                            b: seq<byte>)
    requires WellFormed(fs) && Fits(fs, slots)
    requires ReadFields(fs, slots, seen, a).Some? && ReadFields(fs, slots, seen, a).value.whole
    ensures var o := ReadFields(fs, slots, seen, a).value;
      ReadFields(fs, slots, seen, a + b) == ReadFields(fs, o.slots, o.seen, b)
    decreases |a|
  {
    hide ReadField;
    if a == [] {
      assert a + b == b;
    } else {
      var t := ReadTag(a);
      ReadTagExtend(a, b);
      var at := Find(fs, t.tag);
      if at.Some? {
        ReadFieldExtend(fs, slots, at.value, t.wire, t.rest, b);
        var (slots', rest) := ReadField(fs, slots, at.value, t.wire, t.rest).value;
        ReadFieldsConcat(fs, slots', seen + {at.value}, rest, b);
      } else {
        SkipExtend(t.wire, t.rest, b);
        ReadFieldsConcat(fs, slots, seen, Skip(t.wire, t.rest).value, b);
      }
    }
  }

  /** The fields met before do not influence the loop; they are only remembered. */
  lemma {:induction false} SeenOnlyGrows(fs: seq<Field>, slots: seq<Slot>, seen: set<nat>, more: set<nat>, b: seq<byte>)
    requires WellFormed(fs) && Fits(fs, slots)
    ensures ReadFields(fs, slots, more + seen, b) ==
      match ReadFields(fs, slots, seen, b)
      case None => None
      case Some(o) => Some(o.(seen := more + o.seen))
    decreases |b|
  {
    hide ReadField;
    if b != [] && ReadTag(b).Tag? {
      var t := ReadTag(b);
      var at := Find(fs, t.tag);
      if at.Some? {
        var r := ReadField(fs, slots, at.value, t.wire, t.rest);
        if r.Some? {
          assert more + (seen + {at.value}) == more + seen + {at.value};
          SeenOnlyGrows(fs, r.value.0, seen + {at.value}, more, r.value.1);
        }
      } else if Skip(t.wire, t.rest).Some? {
        SeenOnlyGrows(fs, slots, seen, more, Skip(t.wire, t.rest).value);
      }
    }
  }

  /** One decode of `a + b`, in terms of the two loops; each required field may be in either. */
  lemma DecodeConcat(fs: seq<Field>, s: seq<Slot>, a: seq<byte>, b: seq<byte>)
    requires WellFormed(fs) && Fits(fs, s) && Whole(fs, s, a)
    ensures var o := ReadFields(fs, s, {}, a).value;
      DecodeInto(fs, s, a + b) ==
        match ReadFields(fs, o.slots, {}, b)
        case None => None
        case Some(p) => if AllRequired(fs, o.seen + p.seen) then Some(p.slots) else None
  {
    hide ReadFields;
    var o := ReadFields(fs, s, {}, a).value;
    ReadFieldsConcat(fs, s, {}, a, b);
    SeenOnlyGrows(fs, o.slots, {}, o.seen, b);
    assert o.seen + {} == o.seen;
  }

  /** If decoding `a` and then `b` into one structure succeeds, so does decoding them joined,
      with the same structure. */
  lemma MergeLaw(fs: seq<Field>, s: seq<Slot>, a: seq<byte>, b: seq<byte>, s1: seq<Slot>, s2: seq<Slot>)
    requires WellFormed(fs) && Fits(fs, s) && Whole(fs, s, a)
    requires DecodeInto(fs, s, a) == Some(s1) && DecodeInto(fs, s1, b) == Some(s2)
    ensures DecodeInto(fs, s, a + b) == Some(s2)
  {
    hide ReadFields;
    DecodeConcat(fs, s, a, b);
  }

  // ----- Inputs that are accepted and yet not complete --------------------------------

  /** The loop over a field that is known, whatever comes after it. */
  lemma KnownThen(fs: seq<Field>, s: seq<Slot>, seen: set<nat>, x: seq<byte>, at: nat, y: seq<byte>)
    requires WellFormed(fs) && Fits(fs, s) && x != [] && ReadTag(x).Tag?
    requires Find(fs, ReadTag(x).tag) == Some(at) && ReadField(fs, s, at, ReadTag(x).wire, ReadTag(x).rest).Some?
    ensures var r := ReadField(fs, s, at, ReadTag(x).wire, ReadTag(x).rest).value;
      EndOf(x, r.1) && ReadFields(fs, s, seen, Front(x, r.1) + y) == ReadFields(fs, r.0, seen + {at}, y)
  {
    hide ReadFields, ReadField, ReadTag, Skip, Find;
    var t := ReadTag(x);
    var (s', rest) := ReadField(fs, s, at, t.wire, t.rest).value;
    ReadTagCut(x);
    ReadFieldCut(fs, s, at, t.wire, t.rest);
    var head, p := Front(x, t.rest), Front(t.rest, rest);
    HeadThen(x, head, p, rest, y);
    ReadTagExtend(head, p + y);
    ReadFieldExtend(fs, s, at, t.wire, p, y);
    Unfold(fs, s, seen, head + (p + y));
  }

  /** The loop over a field that is skipped, whatever comes after it. */
  lemma SkippedThen(fs: seq<Field>, s: seq<Slot>, seen: set<nat>, x: seq<byte>, y: seq<byte>)
    requires WellFormed(fs) && Fits(fs, s) && x != [] && ReadTag(x).Tag?
    requires Find(fs, ReadTag(x).tag).None? && Skip(ReadTag(x).wire, ReadTag(x).rest).Some?
    requires fs != [] || ReadTag(x).tag != 0
    ensures var rest := Skip(ReadTag(x).wire, ReadTag(x).rest).value;
      EndOf(x, rest) && ReadFields(fs, s, seen, Front(x, rest) + y) == ReadFields(fs, s, seen, y)
  {
    hide ReadFields, ReadField, ReadTag, Skip, Find;
    var t := ReadTag(x);
    var rest := Skip(t.wire, t.rest).value;
    ReadTagCut(x);
    SkipCut(t.wire, t.rest);
    var head, p := Front(x, t.rest), Front(t.rest, rest);
    HeadThen(x, head, p, rest, y);
    ReadTagExtend(head, p + y);
    SkipExtend(t.wire, p, y);
    Unfold(fs, s, seen, head + (p + y));
  }

  lemma HeadThen(x: seq<byte>, head: seq<byte>, p: seq<byte>, rest: seq<byte>, y: seq<byte>)
    requires x == head + (p + rest)
    ensures EndOf(x, rest) && Front(x, rest) + y == head + (p + y)
    ensures [] + (p + y) == p + y && [] + y == y
  {
    assert x == (head + p) + rest;
    assert Front(x, rest) == head + p;
  }

  /** `x` is complete fields `a` and then `t`, which begins with a tag that ends the message. */
  ghost predicate EndsAt(fs: seq<Field>, s: seq<Slot>, seen: set<nat>, x: seq<byte>, a: seq<byte>, t: seq<byte>)
    requires WellFormed(fs) && Fits(fs, s)
  {
    && x == a + t && t != [] && ReadTag(t).End?
    && ReadFields(fs, s, seen, a).Some? && ReadFields(fs, s, seen, a).value.whole
  }

  /** A loop that stops early has read complete fields. */
  lemma {:induction false} StopsAt(fs: seq<Field>, s: seq<Slot>, seen: set<nat>, x: seq<byte>)
    returns (a: seq<byte>, t: seq<byte>)
    requires WellFormed(fs) && Fits(fs, s)
    requires ReadFields(fs, s, seen, x).Some? && !ReadFields(fs, s, seen, x).value.whole
    ensures EndsAt(fs, s, seen, x, a, t)
    decreases |x|
  {
    hide ReadFields, ReadField, Skip, ReadTag, Find;
    Unfold(fs, s, seen, x);
    var tag := ReadTag(x);
    if tag.End? {
      a, t := [], x;
      Unfold(fs, s, seen, []);
      assert a + t == x;
    } else {
      var at := Find(fs, tag.tag);
      var rest;
      if at.Some? {
        var (s', rest') := ReadField(fs, s, at.value, tag.wire, tag.rest).value;
        a, t := StopsAt(fs, s', seen + {at.value}, rest');
        KnownThen(fs, s, seen, x, at.value, a);
        rest := rest';
      } else {
        rest := Skip(tag.wire, tag.rest).value;
        a, t := StopsAt(fs, s, seen, rest);
        SkippedThen(fs, s, seen, x, a);
      }
      assert Front(x, rest) + (a + t) == Front(x, rest) + a + t;
      a := Front(x, rest) + a;
    }
  }

  /** A tag that the end of the input cuts off. */
  predicate CutTag(t: seq<byte>) {
    0 < |t| <= LEN32 && forall i :: 0 <= i < |t| ==> t[i] >= 128
  }

  lemma {:induction false} CutGroups(t: seq<byte>, limit: nat)
    ensures Groups(t, limit) == Broken([]) <==> |t| <= limit && forall i :: 0 <= i < |t| ==> t[i] >= 128
    decreases limit
  {
    if t != [] && limit > 0 {
      CutGroups(t[1..], limit - 1);
      assert forall i :: 1 <= i < |t| ==> t[i] == t[1..][i - 1];
    }
  }

  /** A tag ends the message exactly if it is zero, in however many bytes, or cut off. */
  lemma EndTags(t: seq<byte>)
    requires t != []
    ensures ReadTag(t).End? <==> CutTag(t) || (Scan32(t).Scan? && Scan32(t).value == 0)
  {
    CutGroups(t, LEN32);
  }

  /** The inputs that the loop accepts and that are not a sequence of complete fields are exactly
      complete fields followed by a tag that ends the message; decoding such an input is decoding
      the complete fields, whatever the bytes after that tag. */
  lemma EndsEarly(fs: seq<Field>, s: seq<Slot>, x: seq<byte>)
    requires WellFormed(fs) && Fits(fs, s)
    ensures ReadFields(fs, s, {}, x).Some? && !Whole(fs, s, x) <==> exists a, t :: EndsAt(fs, s, {}, x, a, t)
    ensures forall a, t :: EndsAt(fs, s, {}, x, a, t) ==> DecodeInto(fs, s, x) == DecodeInto(fs, s, a)
  {
    hide ReadFields, ReadTag;
    forall a, t | EndsAt(fs, s, {}, x, a, t)
      ensures ReadFields(fs, s, {}, x).Some? && !Whole(fs, s, x)
      ensures DecodeInto(fs, s, x) == DecodeInto(fs, s, a)
    {
      var o := ReadFields(fs, s, {}, a).value;
      ReadFieldsConcat(fs, s, {}, a, t);
      Unfold(fs, o.slots, o.seen, t);
    }
    if ReadFields(fs, s, {}, x).Some? && !Whole(fs, s, x) {
      var a, t := StopsAt(fs, s, {}, x);
    }
  }

  /** In particular a zero tag hides all that is joined to it. */
  lemma ZeroTagHides(fs: seq<Field>, s: seq<Slot>, a: seq<byte>, b: seq<byte>)
    requires WellFormed(fs) && Fits(fs, s) && Whole(fs, s, a)
    ensures DecodeInto(fs, s, a + ([0] + b)) == DecodeInto(fs, s, a)
  {
    hide ReadFields, DecodeInto;
    assert ([0] + b)[1..] == b;
    assert Groups([0] + b, LEN32) == Scan(0, b);
    EndsEarly(fs, s, a + ([0] + b));
    assert EndsAt(fs, s, {}, a + ([0] + b), a, [0] + b);
  }

  /** Two encoded messages joined: later values win, arrays are appended, submessages merged,
      unless some array has no room. */
  lemma MergeOfTwo(fs: seq<Field>, m1: seq<Slot>, m2: seq<Slot>, b1: seq<byte>, b2: seq<byte>)
    requires WellFormed(fs) && Fits(fs, m1) && Clean(fs, m1) && Fits(fs, m2) && Clean(fs, m2)
    requires EncodeFields(fs, m1) == Some(b1) && |b1| < W32
    requires EncodeFields(fs, m2) == Some(b2) && |b2| < W32
    ensures Sub(fs, fs) && Decode(fs, b1).Some?
    ensures var s1 := Decode(fs, b1).value;
      Decode(fs, b1 + b2) ==
        if Room(fs, s1, fs, m2, 0) then Some(MergeFields(fs, s1, fs, m2, |fs|)) else None
  {
    hide ReadFields, MergeFields, Room;
    SubSelf(fs);
    var s := Defaults(fs);
    RoundTrip(fs, m1, b1);
    DecodeEncoded(fs, s, fs, m1, b1);
    var s1 := Decode(fs, b1).value;
    DecodeEncoded(fs, s1, fs, m2, b2);
    hide Fits, WellFormed, Sub, Clean, EncodeFields, Defaults;
    assert Whole(fs, s, b1);
    DecodeConcat(fs, s, b1, b2);
  }
}
