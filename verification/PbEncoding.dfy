/** What the nanopb encoder writes (nanopb/pb_encode.c:116-349, 451-473, 494-776). */
module PbEncoding {
  import opened Wrappers
  import opened PbWire
  import opened PbSchema

  function WireType(k: Kind): (w: nat)
    ensures w < 8
  {
    match k
    case VarintKind(_) => VARINT
    case UVarintKind(_) => VARINT
    case SVarintKind(_) => VARINT
    case Fixed32 => BITS32
    case Fixed64 => BITS64
    case _ => DELIMITED
  }

  function TagBytes(f: Field, wire: nat): seq<byte> {
    Varint(f.tag * 8 + wire)
  }

  function Prefixed(payload: seq<byte>): seq<byte> {
    Varint(|payload|) + payload
  }

  /** The characters before the terminator, or all of a buffer that has none. */
  function UpToNul(s: seq<byte>): (r: seq<byte>)
    ensures |r| <= |s|
    ensures 0 !in s ==> r == s
  {
    if s == [] || s[0] == 0 then [] else [s[0]] + UpToNul(s[1..])
  }

  /** The items of a field that are to be sent. */
  function Present(f: Field, s: Slot): (vs: seq<Value>)
    requires FitsSlot(f, s)
    ensures forall i :: 0 <= i < |vs| ==> HasKind(f.kind, vs[i])
  {
    match f.rule
    case Required => [s.v]
    case Singular => if IsZero(f.kind, s.v) then [] else [s.v]
    case Optional => if s.has then [s.v] else []
    case Repeated(_) => s.items
    case Oneof(_) => if s.which.Some? then [s.which.value] else []
  }

  /** One item without its tag; `None` is a failed encode. */
  function EncodeValue(k: Kind, v: Value): Option<seq<byte>>
    requires HasKind(k, v)
    decreases k, 0
  {
    match k
    case VarintKind(_) => Some(Varint(Unsigned64(v.n)))
    case UVarintKind(_) => Some(Varint(v.n))
    case SVarintKind(_) => Some(Varint(ZigZag(v.n)))
    case Fixed32 => Some(LittleEndian(v.n, 4))
    case Fixed64 => Some(LittleEndian(v.n, 8))
    case Bytes(cap) => if |v.bytes| > cap then None else Some(Prefixed(v.bytes))
    case Str(_) => Some(Prefixed(UpToNul(v.bytes)))
    case FixedBytes(_) => Some(Prefixed(v.bytes))
    case Submsg(fs) =>
      match EncodeFields(fs, v.slots) { case None => None case Some(b) => Some(Prefixed(b)) }
  }

  /** Items one after another, without tags: the payload of a packed array. */
  function EncodePacked(k: Kind, vs: seq<Value>): Option<seq<byte>>
    requires forall i :: 0 <= i < |vs| ==> HasKind(k, vs[i])
    decreases k, |vs|
  {
    if vs == [] then Some([])
    else
      match (EncodeValue(k, vs[0]), EncodePacked(k, vs[1..]))
      case (Some(b), Some(c)) => Some(b + c)
      case _ => None
  }

  /** Items one after another, each behind its tag. */
  function EncodeEach(f: Field, vs: seq<Value>): Option<seq<byte>>
    requires forall i :: 0 <= i < |vs| ==> HasKind(f.kind, vs[i])
    decreases f, |vs|
  {
    if vs == [] then Some([])
    else
      match (EncodeValue(f.kind, vs[0]), EncodeEach(f, vs[1..]))
      case (Some(b), Some(c)) => Some(TagBytes(f, WireType(f.kind)) + b + c)
      case _ => None
  }

  function EncodeSlot(f: Field, s: Slot): Option<seq<byte>>
    requires FitsSlot(f, s)
    decreases f, |Present(f, s)| + 1
  {
    var vs := Present(f, s);
    if f.rule.Repeated? && |vs| > f.rule.max then None
    else if f.rule.Repeated? && Packable(f.kind) && vs != [] then
      match EncodePacked(f.kind, vs)
      case None => None
      case Some(b) => Some(TagBytes(f, DELIMITED) + Prefixed(b))
    else EncodeEach(f, vs)
  }

  function EncodeFields(fs: seq<Field>, slots: seq<Slot>): Option<seq<byte>>
    requires Fits(fs, slots)
    decreases fs
  {
    if fs == [] then Some([])
    else
      match (EncodeSlot(fs[0], slots[0]), EncodeFields(fs[1..], slots[1..]))
      case (Some(b), Some(c)) => Some(b + c)
      case _ => None
  }

  // ----- What can be sent so that it comes back ------------------------------

  /** A string that reaches its end marker inside its buffer. Only items that are sent matter. */
  predicate CleanValue(k: Kind, v: Value)
    requires HasKind(k, v)
    decreases k
  {
    match k
    case Str(cap) => |v.bytes| < cap && 0 !in v.bytes
    case Submsg(fs) => Clean(fs, v.slots)
    case _ => true
  }

  predicate CleanSlot(f: Field, s: Slot)
    requires FitsSlot(f, s)
    decreases f
  {
    forall i :: 0 <= i < |Present(f, s)| ==> CleanValue(f.kind, Present(f, s)[i])
  }

  /** Strings end inside their buffers, and a union has one current member. */
  predicate Clean(fs: seq<Field>, slots: seq<Slot>)
    requires Fits(fs, slots)
    decreases fs
  {
    && (forall i :: 0 <= i < |fs| ==> CleanSlot(fs[i], slots[i]))
    && OneMember(fs, slots)
  }

  predicate OneMember(fs: seq<Field>, slots: seq<Slot>)
    requires |fs| == |slots|
  {
    forall i, j :: 0 <= i < j < |fs| && fs[i].rule.Oneof? && fs[i].rule == fs[j].rule ==>
      !Chosen(slots[i]) || !Chosen(slots[j])
  }

  predicate Chosen(s: Slot) {
    s.Choice? && s.which.Some?
  }
}
