/** What the nanopb decoder stores (nanopb/pb_decode.c:356-429, 852-967, 1118-1379). */
module PbDecoding {
  import opened Wrappers
  import opened PbWire
  import opened PbSchema

  /** Any member of a union replaces the others. */
  function ClearGroup(fs: seq<Field>, slots: seq<Slot>, group: nat): (r: seq<Slot>)
    requires Fits(fs, slots)
    ensures Fits(fs, r)
  {
    seq(|fs|, i requires 0 <= i < |fs| =>
      if fs[i].rule == Oneof(group) then Choice(None) else slots[i])
  }

  /** An item of a kind without submessages, read over whatever was there. */
  function ReadScalar(k: Kind, b: seq<byte>): (r: Option<(Value, seq<byte>)>)
    requires !k.Submsg?
    ensures r.Some? ==> HasKind(k, r.value.0) && |r.value.1| < |b|
  {
    match k
    case VarintKind(w) => (
      match Scan64(b)
      case Broken(_) => None
      case Scan(u, rest) =>
        var n := if w == Bits64 then Signed(u, W64) else Signed(u % W32, W32);
        if InSigned(w, n) then Some((Num(n), rest)) else None)
    case UVarintKind(w) => (
      match Scan64(b)
      case Broken(_) => None
      case Scan(u, rest) => if InUnsigned(w, u) then Some((Num(u), rest)) else None)
    case SVarintKind(w) => (
      match Scan64(b)
      case Broken(_) => None
      case Scan(u, rest) => if InSigned(w, UnZigZag(u)) then Some((Num(UnZigZag(u)), rest)) else None)
    case Fixed32 => (
      match Take(b, 4)
      case None => None
      case Some((raw, rest)) =>
        FromLittleEndianBound(raw);
        Pow256Values();
        Some((Num(FromLittleEndian(raw)), rest)))
    case Fixed64 => (
      match Take(b, 8)
      case None => None
      case Some((raw, rest)) =>
        FromLittleEndianBound(raw);
        Pow256Values();
        Some((Num(FromLittleEndian(raw)), rest)))
    case Bytes(cap) => (
      match Scan32(b)
      case Broken(_) => None
      case Scan(size, rest) => if size > cap then None else AsRaw(Take(rest, size)))
    case Str(cap) => (
      match Scan32(b)
      case Broken(_) => None
      case Scan(size, rest) => if size + 1 > cap then None else AsRaw(Take(rest, size)))
    case FixedBytes(n) => (
      match Scan32(b)
      case Broken(_) => None
      case Scan(size, rest) =>
        if size == 0 then Some((Raw(Zeros(n)), rest))
        else if size != n then None
        else AsRaw(Take(rest, n)))
  }

  function AsRaw(r: Option<(seq<byte>, seq<byte>)>): Option<(Value, seq<byte>)> {
    match r { case None => None case Some((raw, rest)) => Some((Raw(raw), rest)) }
  }

  lemma {:induction false} FromLittleEndianBound(b: seq<byte>)
    ensures FromLittleEndian(b) < Pow256(|b|)
  {
    if b != [] {
      FromLittleEndianBound(b[1..]);
    }
  }

  /** A submessage is read into `cur`, which keeps what the input does not mention. */
  function ReadValue(k: Kind, cur: Value, b: seq<byte>): (r: Option<(Value, seq<byte>)>)
    requires GoodKind(k) && HasKind(k, cur)
    ensures r.Some? ==> HasKind(k, r.value.0) && |r.value.1| < |b|
    decreases k, |b|, 0
  {
    if !k.Submsg? then ReadScalar(k, b)
    else
      match Delimited(b)
      case None => None
      case Some((payload, rest)) =>
        match DecodeInto(k.fields, cur.slots, payload)
        case None => None
        case Some(slots) => Some((Msg(slots), rest))
  }

  /** Items until the payload ends; one that does not fit is an overflow. */
  function ReadPacked(k: Kind, items: seq<Value>, max: nat, b: seq<byte>): (r: Option<seq<Value>>)
    requires Packable(k)
    requires forall i :: 0 <= i < |items| ==> HasKind(k, items[i])
    ensures r.Some? ==> forall i :: 0 <= i < |r.value| ==> HasKind(k, r.value[i])
    ensures r.Some? && |items| <= max ==> |r.value| <= max
    decreases |b|
  {
    if b == [] then Some(items)
    else if |items| >= max then None
    else
      match ReadScalar(k, b)
      case None => None
      case Some((v, rest)) => ReadPacked(k, items + [v], max, rest)
  }

  /** The field at `at` reads its payload; the wire type matters to arrays only. */
  function ReadField(fs: seq<Field>, slots: seq<Slot>, at: nat, wire: nat, b: seq<byte>)
    : (r: Option<(seq<Slot>, seq<byte>)>)
    requires WellFormed(fs) && Fits(fs, slots) && at < |fs|
    ensures r.Some? ==> Fits(fs, r.value.0) && |r.value.1| < |b|
    decreases fs, |b|, 0
  {
    var f := fs[at];
    assert FitsSlot(f, slots[at]) && GoodField(f);
    assert (fs decreases to f) && (f decreases to f.kind);
    match f.rule
    case Repeated(max) =>
      var items := slots[at].items;
      if wire == DELIMITED && Packable(f.kind) then
        match Delimited(b)
        case None => None
        case Some((payload, rest)) =>
          match ReadPacked(f.kind, items, max, payload)
          case None => None
          case Some(vs) => Some((slots[at := Many(vs)], rest))
      else if |items| >= max then None
      else
        (match ReadValue(f.kind, DefaultOf(f.kind, f.init), b)
         case None => None
         case Some((v, rest)) => Some((slots[at := Many(items + [v])], rest)))
    case Oneof(group) => (
      match ReadValue(f.kind, DefaultOf(f.kind, f.init), b)
      case None => None
      case Some((v, rest)) => Some((ClearGroup(fs, slots, group)[at := Choice(Some(v))], rest)))
    case Optional => (
      match ReadValue(f.kind, slots[at].v, b)
      case None => None
      case Some((v, rest)) => Some((slots[at := Maybe(true, v)], rest)))
    case _ => (
      match ReadValue(f.kind, slots[at].v, b)
      case None => None
      case Some((v, rest)) => Some((slots[at := One(v)], rest)))
  }

  /** How the field loop ends: the structure, the fields met, and whether the input ran out
      between two fields. */
  datatype Outcome = Outcome(slots: seq<Slot>, seen: set<nat>, whole: bool, rest: seq<byte>)

  function ReadFields(fs: seq<Field>, slots: seq<Slot>, seen: set<nat>, b: seq<byte>)
    : (r: Option<Outcome>)
    requires WellFormed(fs) && Fits(fs, slots)
    ensures r.Some? ==> Fits(fs, r.value.slots)
    decreases fs, |b|, 1
  {
    if b == [] then Some(Outcome(slots, seen, true, b))
    else
      match ReadTag(b)
      case End(rest) => Some(Outcome(slots, seen, false, rest))
      case BadTag => None
      case Tag(tag, wire, rest) =>
        match Find(fs, tag)
        case Some(at) => (
          match ReadField(fs, slots, at, wire, rest)
          case None => None
          case Some((slots', rest')) => ReadFields(fs, slots', seen + {at}, rest'))
        case None =>
          // An empty field list takes its own terminator for a field with tag zero.
          if fs == [] && tag == 0 then None
          else
            match Skip(wire, rest)
            case None => None
            case Some(rest') => ReadFields(fs, slots, seen, rest')
  }

  /** One turn of the loop in `ReadFields`. */
  lemma Unfold(fs: seq<Field>, slots: seq<Slot>, seen: set<nat>, b: seq<byte>)
    requires WellFormed(fs) && Fits(fs, slots)
    ensures b == [] ==> ReadFields(fs, slots, seen, b) == Some(Outcome(slots, seen, true, b))
    ensures b != [] && ReadTag(b).End? ==>
      ReadFields(fs, slots, seen, b) == Some(Outcome(slots, seen, false, ReadTag(b).rest))
    ensures b != [] && ReadTag(b).BadTag? ==> ReadFields(fs, slots, seen, b) == None
    ensures b != [] && ReadTag(b).Tag? && Find(fs, ReadTag(b).tag).None? ==>
      var t := ReadTag(b);
      ReadFields(fs, slots, seen, b) ==
        if (fs == [] && t.tag == 0) || Skip(t.wire, t.rest).None? then None
        else ReadFields(fs, slots, seen, Skip(t.wire, t.rest).value)
    ensures b != [] && ReadTag(b).Tag? && Find(fs, ReadTag(b).tag).Some? ==>
      var t := ReadTag(b);
      var at := Find(fs, t.tag).value;
      var r := ReadField(fs, slots, at, t.wire, t.rest);
      && (r.None? ==> ReadFields(fs, slots, seen, b) == None)
      && (r.Some? ==> Fits(fs, r.value.0))
      && (r.Some? ==> ReadFields(fs, slots, seen, b) == ReadFields(fs, r.value.0, seen + {at}, r.value.1))
  {
    hide ReadField, Skip, ReadTag;
  }

  predicate AllRequired(fs: seq<Field>, seen: set<nat>) {
    forall i :: 0 <= i < |fs| && fs[i].rule.Required? ==> i in seen
  }

  /** `pb_decode_noinit`. */
  function DecodeInto(fs: seq<Field>, slots: seq<Slot>, b: seq<byte>): (r: Option<seq<Slot>>)
    requires WellFormed(fs) && Fits(fs, slots)
    ensures r.Some? ==> Fits(fs, r.value)
    decreases fs, |b|, 2
  {
    match ReadFields(fs, slots, {}, b)
    case None => None
    case Some(o) => if AllRequired(fs, o.seen) then Some(o.slots) else None
  }

  /** The input is a sequence of complete fields: nothing cut off, no terminator. */
  predicate Whole(fs: seq<Field>, slots: seq<Slot>, b: seq<byte>)
    requires WellFormed(fs) && Fits(fs, slots)
  {
    ReadFields(fs, slots, {}, b).Some? && ReadFields(fs, slots, {}, b).value.whole
  }

  /** `pb_decode`. */
  function Decode(fs: seq<Field>, b: seq<byte>): (r: Option<seq<Slot>>)
    requires WellFormed(fs)
    ensures r.Some? ==> Fits(fs, r.value)
  {
    DecodeInto(fs, Defaults(fs), b)
  }
}
