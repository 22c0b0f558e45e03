/** Field descriptors and message structures of nanopb (nanopb/pb.h:138-245), without
    callbacks, extensions and dynamic allocation. */
module PbSchema {
  import opened Wrappers
  import opened PbWire

  datatype Width = Bits8 | Bits16 | Bits32 | Bits64

  function Modulus(w: Width): (m: nat)
    ensures 0 < m <= W64
  {
    match w
    case Bits8 => 0x100
    case Bits16 => 0x1_0000
    case Bits32 => W32
    case Bits64 => W64
  }

  predicate InSigned(w: Width, n: int) {
    -(Modulus(w) / 2) <= n < Modulus(w) / 2
  }

  predicate InUnsigned(w: Width, n: int) {
    0 <= n < Modulus(w)
  }

  /** `LTYPE`: how one item is stored and sent. A string's `cap` counts its terminator. */
  datatype Kind =
    | VarintKind(width: Width)
    | UVarintKind(width: Width)
    | SVarintKind(width: Width)
    | Fixed32
    | Fixed64
    | Bytes(cap: nat)
    | Str(cap: nat)
    | FixedBytes(size: nat)
    | Submsg(fields: seq<Field>)

  /** `HTYPE`. `Singular` is the proto3 form, optional without a has flag. */
  datatype Rule = Required | Optional | Singular | Repeated(max: nat) | Oneof(group: nat)

  /** Where the field lies in the C structure, relative to the end of the previous one, and
      its count, has flag or union tag relative to itself. */
  datatype Place = Place(dataOffset: int, sizeOffset: int, dataSize: nat, pointer: bool, extension: bool)

  /** `init` is the default value; a submessage takes those of its own fields. */
  datatype Field = Field(tag: nat, rule: Rule, kind: Kind, init: Value, place: Place)

  datatype Value = Num(n: int) | Raw(bytes: seq<byte>) | Msg(slots: seq<Slot>)

  /** The part of a structure that one field describes. Only the first `count` items of an
      array are kept, and nothing of a union member that is not the current one. */
  datatype Slot =
    | One(v: Value)
    | Maybe(has: bool, v: Value)
    | Many(items: seq<Value>)
    | Choice(which: Option<Value>)

  predicate Packable(k: Kind) {
    k.VarintKind? || k.UVarintKind? || k.SVarintKind? || k.Fixed32? || k.Fixed64?
  }

  // ----- Shape -------------------------------------------------------------

  /** `v` is what a C object of kind `k` can hold. */
  predicate HasKind(k: Kind, v: Value)
    decreases k
  {
    match k
    case VarintKind(w) => v.Num? && InSigned(w, v.n)
    case UVarintKind(w) => v.Num? && InUnsigned(w, v.n)
    case SVarintKind(w) => v.Num? && InSigned(w, v.n)
    case Fixed32 => v.Num? && InUnsigned(Bits32, v.n)
    case Fixed64 => v.Num? && InUnsigned(Bits64, v.n)
    case Bytes(_) => v.Raw?
    case Str(cap) => v.Raw? && |v.bytes| <= cap
    case FixedBytes(n) => v.Raw? && |v.bytes| == n
    case Submsg(fs) => v.Msg? && Fits(fs, v.slots)
  }

  predicate FitsSlot(f: Field, s: Slot)
    decreases f
  {
    match f.rule
    case Required => s.One? && HasKind(f.kind, s.v)
    case Singular => s.One? && HasKind(f.kind, s.v)
    case Optional => s.Maybe? && HasKind(f.kind, s.v)
    case Repeated(_) => s.Many? && forall i :: 0 <= i < |s.items| ==> HasKind(f.kind, s.items[i])
    case Oneof(_) => s.Choice? && (s.which.Some? ==> HasKind(f.kind, s.which.value))
  }

  predicate Fits(fs: seq<Field>, slots: seq<Slot>)
    decreases fs
  {
    |slots| == |fs| && forall i :: 0 <= i < |fs| ==> FitsSlot(fs[i], slots[i])
  }

  // ----- Descriptors ---------------------------------------------------------

  function Find(fs: seq<Field>, tag: nat): (r: Option<nat>)
    ensures r.Some? ==> r.value < |fs| && fs[r.value].tag == tag
    ensures r.None? ==> forall i :: 0 <= i < |fs| ==> fs[i].tag != tag
  {
    if fs == [] then None
    else if fs[0].tag == tag then Some(0)
    else match Find(fs[1..], tag) { case None => None case Some(i) => Some(i + 1) }
  }

  /** A byte array within its buffer; a string that leaves room for its terminator. */
  predicate ScalarInBounds(k: Kind, v: Value) {
    match k
    case Bytes(cap) => v.Raw? && |v.bytes| <= cap
    case Str(cap) => v.Raw? && |v.bytes| < cap
    case _ => true
  }

  predicate GoodKind(k: Kind)
    decreases k
  {
    match k
    case Bytes(cap) => cap < W32
    case Str(cap) => 0 < cap < W32
    case FixedBytes(n) => n < W32
    case Submsg(fs) => WellFormed(fs)
    case _ => true
  }

  predicate GoodField(f: Field)
    decreases f
  {
    && 0 < f.tag < 0x2000_0000
    && !f.place.pointer && !f.place.extension
    && GoodKind(f.kind)
    && (!f.kind.Submsg? ==> HasKind(f.kind, f.init) && ScalarInBounds(f.kind, f.init))
    && (f.rule.Singular? && !f.kind.FixedBytes? ==> !f.kind.Submsg? && IsZero(f.kind, f.init))
  }

  /** What the generator guarantees of every field list. */
  predicate WellFormed(fs: seq<Field>)
    decreases fs
  {
    && (forall i :: 0 <= i < |fs| ==> GoodField(fs[i]))
    && (forall i, j :: 0 <= i < j < |fs| ==> fs[i].tag != fs[j].tag)
  }

  /** The proto3 "not set" test, for the kinds that the singular form is used with. Bytes of a fixed
      length, other than zero, always count as set. */
  predicate IsZero(k: Kind, v: Value) {
    match v
    case Num(n) => n == 0
    case Raw(bytes) =>
      if k.Str? then bytes == [] || bytes[0] == 0
      else if k.FixedBytes? then k.size == 0
      else bytes == []
    case Msg(_) => false
  }

  function Zeros(n: nat): (b: seq<byte>)
    ensures |b| == n
  {
    if n == 0 then [] else [0] + Zeros(n - 1)
  }

  // ----- Defaults --------------------------------------------------------------

  function DefaultOf(k: Kind, init: Value): (v: Value)
    requires GoodKind(k) && (!k.Submsg? ==> HasKind(k, init))
    ensures HasKind(k, v)
    decreases k
  {
    match k
    case Submsg(fs) => Msg(Defaults(fs))
    case _ => init
  }

  function DefaultSlot(f: Field): (s: Slot)
    requires GoodField(f)
    ensures FitsSlot(f, s)
    decreases f
  {
    match f.rule
    case Required => One(DefaultOf(f.kind, f.init))
    case Singular => One(DefaultOf(f.kind, f.init))
    case Optional => Maybe(false, DefaultOf(f.kind, f.init))
    case Repeated(_) => Many([])
    case Oneof(_) => Choice(None)
  }

  /** The structure after `pb_message_set_to_defaults`. */
  function Defaults(fs: seq<Field>): (slots: seq<Slot>)
    requires WellFormed(fs)
    ensures Fits(fs, slots)
    ensures forall i :: 0 <= i < |fs| ==> slots[i] == DefaultSlot(fs[i])
    decreases fs
  {
    seq(|fs|, i requires 0 <= i < |fs| => DefaultSlot(fs[i]))
  }
}
