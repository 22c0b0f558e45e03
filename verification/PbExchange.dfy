/** Decoding what the encoder wrote, into any structure and with any schema that knows only
    part of the fields (nanopb/pb_encode.c:451-473, nanopb/pb_decode.c:852-967). */
module PbExchange {
  import opened Wrappers
  import opened PbSchema
  import opened PbEncoding

  // ----- A receiver that knows part of the fields ------------------------------

  predicate SubKind(k: Kind, full: Kind)
    decreases k
  {
    if k.Submsg? && full.Submsg? then Sub(k.fields, full.fields) else k == full
  }

  predicate Knows(f: Field, full: seq<Field>)
    decreases f
  {
    var at := Find(full, f.tag);
    at.Some? && full[at.value].rule == f.rule && SubKind(f.kind, full[at.value].kind)
  }

  /** Every field of `small` is one of `full`, with the same tag, rule and kind; submessages
      may in turn know fewer fields. The order is free. */
  predicate Sub(small: seq<Field>, full: seq<Field>)
    decreases small
  {
    forall i :: 0 <= i < |small| ==> Knows(small[i], full)
  }

  /** Where the field at `i` of the receiver stands in the sender's list. */
  function Source(small: seq<Field>, full: seq<Field>, i: nat): (j: nat)
    requires WellFormed(small) && WellFormed(full) && Sub(small, full) && i < |small|
    ensures j < |full| && full[j].tag == small[i].tag && full[j].rule == small[i].rule
    ensures SubKind(small[i].kind, full[j].kind) && GoodField(full[j]) && GoodField(small[i])
  {
    assert Knows(small[i], full);
    Find(full, small[i].tag).value
  }

  // ----- What decoding does to a structure, said without any bytes ---------------

  /** `v` sent to `cur`: a submessage is merged field by field, anything else replaced. */
  function MergeValue(k: Kind, cur: Value, full: Kind, v: Value): (r: Value)
    requires GoodKind(k) && HasKind(k, cur) && GoodKind(full) && HasKind(full, v)
    requires SubKind(k, full)
    ensures HasKind(k, r)
    decreases k
  {
    if k.Submsg? then Msg(MergeFields(k.fields, cur.slots, full.fields, v.slots, |full.fields|)) else v
  }

  /** A new array item or union member starts from the defaults. */
  function Fresh(f: Field, full: Kind, v: Value): (r: Value)
    requires GoodField(f) && GoodKind(full) && HasKind(full, v) && SubKind(f.kind, full)
    ensures HasKind(f.kind, r)
    decreases f, 0
  {
    MergeValue(f.kind, DefaultOf(f.kind, f.init), full, v)
  }

  /** Later values win, arrays are appended, submessages are merged. */
  function MergeSlot(f: Field, s: Slot, full: Field, sent: seq<Value>): (r: Slot)
    requires GoodField(f) && FitsSlot(f, s) && GoodField(full) && SubKind(f.kind, full.kind)
    requires forall i :: 0 <= i < |sent| ==> HasKind(full.kind, sent[i])
    ensures FitsSlot(f, r)
    decreases f, 1
  {
    if sent == [] then s
    else
      match f.rule
      case Repeated(_) =>
        Many(s.items + seq(|sent|, i requires 0 <= i < |sent| => Fresh(f, full.kind, sent[i])))
      case Oneof(_) => Choice(Some(Fresh(f, full.kind, sent[0])))
      case Optional => Maybe(true, MergeValue(f.kind, s.v, full.kind, sent[0]))
      case _ => One(MergeValue(f.kind, s.v, full.kind, sent[0]))
  }

  /** Some member of the group that `small` knows is among the first `n` fields sent. */
  predicate Switched(small: seq<Field>, full: seq<Field>, m: seq<Slot>, group: nat, n: nat)
    requires Fits(full, m) && n <= |full|
  {
    exists j :: 0 <= j < n && full[j].rule == Oneof(group) && Chosen(m[j]) &&
      Find(small, full[j].tag).Some?
  }

  /** The slot at `i` once the first `n` fields of `m` have arrived. */
  function MergeAt(small: seq<Field>, s: seq<Slot>, full: seq<Field>, m: seq<Slot>, n: nat, i: nat)
    : (r: Slot)
    requires WellFormed(small) && Fits(small, s) && WellFormed(full) && Fits(full, m)
    requires Sub(small, full) && n <= |full| && i < |small|
    ensures FitsSlot(small[i], r)
    decreases small, 0
  {
    var f := small[i];
    var j := Source(small, full, i);
    assert FitsSlot(f, s[i]) && FitsSlot(full[j], m[j]);
    assert small decreases to f;
    var sent := if j < n then Present(full[j], m[j]) else [];
    if f.rule.Oneof? && sent == [] && Switched(small, full, m, f.rule.group, n) then Choice(None)
    else MergeSlot(f, s[i], full[j], sent)
  }

  function MergeFields(small: seq<Field>, s: seq<Slot>, full: seq<Field>, m: seq<Slot>, n: nat)
    : (r: seq<Slot>)
    requires WellFormed(small) && Fits(small, s) && WellFormed(full) && Fits(full, m)
    requires Sub(small, full) && n <= |full|
    ensures Fits(small, r)
    ensures forall i :: 0 <= i < |small| ==> r[i] == MergeAt(small, s, full, m, n, i)
    decreases small, 1
  {
    seq(|small|, i requires 0 <= i < |small| => MergeAt(small, s, full, m, n, i))
  }

  // ----- Whether it fits -----------------------------------------------------------

  /** Every array that `v` appends to, at any depth, has room for what is appended. */
  predicate RoomValue(k: Kind, cur: Value, full: Kind, v: Value)
    requires GoodKind(k) && HasKind(k, cur) && GoodKind(full) && HasKind(full, v)
    requires SubKind(k, full)
    decreases k
  {
    k.Submsg? ==> Room(k.fields, cur.slots, full.fields, v.slots, 0)
  }

  predicate RoomSlot(f: Field, s: Slot, full: Field, sent: seq<Value>)
    requires GoodField(f) && FitsSlot(f, s) && GoodField(full) && SubKind(f.kind, full.kind)
    requires forall i :: 0 <= i < |sent| ==> HasKind(full.kind, sent[i])
    decreases f
  {
    match f.rule
    case Repeated(max) => sent == [] || |s.items| + |sent| <= max
    case Oneof(_) => true
    case _ => sent == [] || RoomValue(f.kind, s.v, full.kind, sent[0])
  }

  predicate RoomAt(small: seq<Field>, s: seq<Slot>, full: seq<Field>, m: seq<Slot>, i: nat)
    requires WellFormed(small) && Fits(small, s) && WellFormed(full) && Fits(full, m)
    requires Sub(small, full) && i < |small|
    decreases small, 0
  {
    var f := small[i];
    var j := Source(small, full, i);
    assert FitsSlot(f, s[i]) && FitsSlot(full[j], m[j]);
    assert small decreases to f;
    RoomSlot(f, s[i], full[j], Present(full[j], m[j]))
  }

  /** There is room for the fields of `m` from the one at `n` on. */
  predicate Room(small: seq<Field>, s: seq<Slot>, full: seq<Field>, m: seq<Slot>, n: nat)
    requires WellFormed(small) && Fits(small, s) && WellFormed(full) && Fits(full, m)
    requires Sub(small, full)
    decreases small, 1
  {
    forall i :: 0 <= i < |small| && Source(small, full, i) >= n ==> RoomAt(small, s, full, m, i)
  }
}
