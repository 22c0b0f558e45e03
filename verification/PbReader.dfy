/** The decoder that fills a message structure field by field
    (nanopb/pb_decode.c:356-429, 763-967, 1118-1379). */
module PbReader {
  import opened Wrappers
  import opened PbWire
  import opened PbSchema
  import opened PbDecoding
  import opened PbIter
  import opened PbInput

  class Message {
    var slots: seq<Slot>

    constructor (slots: seq<Slot>)
      ensures this.slots == slots
    {
      this.slots := slots;
    }
  }

  // ----- The record of required fields -----------------------------------------------

  const MAX_REQUIRED := 64

  /** A 32-bit word, least significant bit first. */
  type Word = w: seq<bool> | |w| == 32 witness Ones(0)

  /** `allbits >> (32 - n)`. */
  function Ones(n: nat): (w: seq<bool>)
    ensures |w| == 32
  {
    seq(32, i => i < n)
  }

  predicate Bit(words: seq<Word>, b: nat)
    requires |words| == 2 && b < MAX_REQUIRED
  {
    words[b / 32][b % 32]
  }

  /** The required field with index `b` among the required ones is in `seen`. */
  predicate SeenBit(fs: seq<Field>, seen: set<nat>, b: nat) {
    exists i :: 0 <= i < |fs| && fs[i].rule.Required? && i in seen && RequiredBefore(fs, i) == b
  }

  predicate Records(words: seq<Word>, fs: seq<Field>, seen: set<nat>)
    requires |words| == 2
  {
    forall b :: 0 <= b < MAX_REQUIRED ==> Bit(words, b) == SeenBit(fs, seen, b)
  }

  /** The counts for which the final check is defined: at 32 it would shift a word by 32 bits. */
  predicate Countable(fs: seq<Field>)
    decreases fs
  {
    var n := RequiredBefore(fs, |fs|);
    && n < MAX_REQUIRED && (n == 0 || n % 32 != 0)
    && forall i :: 0 <= i < |fs| ==> CountableField(fs[i])
  }

  predicate CountableField(f: Field)
    decreases f
  {
    CountableKind(f.kind)
  }

  predicate CountableKind(k: Kind)
    decreases k
  {
    k.Submsg? ==> Countable(k.fields)
  }

  lemma {:induction false} RequiredGrows(fs: seq<Field>, i: nat, j: nat)
    requires i < j <= |fs|
    ensures RequiredBefore(fs, i) + (if fs[i].rule.Required? then 1 else 0) <= RequiredBefore(fs, j)
    decreases j
  {
    if i < j - 1 {
      RequiredGrows(fs, i, j - 1);
    }
  }

  lemma {:induction false} RequiredWith(fs: seq<Field>, n: nat, b: nat) returns (i: nat)
    requires n <= |fs| && b < RequiredBefore(fs, n)
    ensures i < n && fs[i].rule.Required? && RequiredBefore(fs, i) == b
    decreases n
  {
    if fs[n - 1].rule.Required? && RequiredBefore(fs, n - 1) == b {
      i := n - 1;
    } else {
      i := RequiredWith(fs, n - 1, b);
    }
  }

  /** The bits below the count are all set exactly when every required field was met. */
  lemma AllBitsAllRequired(fs: seq<Field>, seen: set<nat>)
    ensures AllRequired(fs, seen) <==> forall b :: 0 <= b < RequiredBefore(fs, |fs|) ==> SeenBit(fs, seen, b)
    ensures forall b: nat :: SeenBit(fs, seen, b) ==> b < RequiredBefore(fs, |fs|)
  {
    forall i | 0 <= i < |fs| && fs[i].rule.Required?
      ensures RequiredBefore(fs, i) < RequiredBefore(fs, |fs|)
    {
      RequiredGrows(fs, i, |fs|);
    }
    if AllRequired(fs, seen) {
      forall b | 0 <= b < RequiredBefore(fs, |fs|)
        ensures SeenBit(fs, seen, b)
      {
        var i := RequiredWith(fs, |fs|, b);
      }
    }
    if forall b :: 0 <= b < RequiredBefore(fs, |fs|) ==> SeenBit(fs, seen, b) {
      forall i | 0 <= i < |fs| && fs[i].rule.Required?
        ensures i in seen
      {
        assert SeenBit(fs, seen, RequiredBefore(fs, i));
        var j :| 0 <= j < |fs| && fs[j].rule.Required? && j in seen && RequiredBefore(fs, j) == RequiredBefore(fs, i);
        if i < j {
          RequiredGrows(fs, i, j);
        } else if j < i {
          RequiredGrows(fs, j, i);
        }
      }
    }
  }

  lemma SeenMore(fs: seq<Field>, seen: set<nat>, at: nat, b: nat)
    requires at < |fs|
    ensures SeenBit(fs, seen + {at}, b) ==
      (SeenBit(fs, seen, b) || (fs[at].rule.Required? && RequiredBefore(fs, at) == b))
  {
    if SeenBit(fs, seen + {at}, b) {
      var i :| 0 <= i < |fs| && fs[i].rule.Required? && i in seen + {at} && RequiredBefore(fs, i) == b;
      assert i == at || i in seen;
    }
  }

  /** Sets bit `b`: `fields_seen[b >> 5] |= 1 << (b & 31)`. */
  function SetBit(words: seq<Word>, b: nat): (r: seq<Word>)
    requires |words| == 2 && b < MAX_REQUIRED
    ensures |r| == 2 && forall c :: 0 <= c < MAX_REQUIRED ==> Bit(r, c) == (Bit(words, c) || b == c)
  {
    assert forall c :: 0 <= c < MAX_REQUIRED && c / 32 == b / 32 && c % 32 == b % 32 ==> b == c;
    words[b / 32 := words[b / 32][b % 32 := true]]
  }

  lemma MarkSeen(words: seq<Word>, fs: seq<Field>, seen: set<nat>, at: nat)
    requires |words| == 2 && Records(words, fs, seen) && at < |fs|
    ensures !fs[at].rule.Required? ==> Records(words, fs, seen + {at})
    ensures fs[at].rule.Required? && RequiredBefore(fs, at) < MAX_REQUIRED ==>
      Records(SetBit(words, RequiredBefore(fs, at)), fs, seen + {at})
  {
    hide SeenBit, SetBit, Bit;
    forall b | 0 <= b < MAX_REQUIRED
      ensures SeenBit(fs, seen + {at}, b) ==
        (SeenBit(fs, seen, b) || (fs[at].rule.Required? && RequiredBefore(fs, at) == b))
    {
      SeenMore(fs, seen, at, b);
    }
  }

  /** The check at the end: whole words first, then the bits that remain. */
  method CheckRequired(words: array<Word>, count: nat) returns (ok: bool)
    requires words.Length == 2 && count < MAX_REQUIRED && (count == 0 || count % 32 != 0)
    requires forall b :: count <= b < MAX_REQUIRED ==> !Bit(words[..], b)
    ensures ok == forall b :: 0 <= b < count ==> Bit(words[..], b)
  {
    if count == 0 {
      return true;
    }
    ghost var all := words[..];
    var i := 0;
    while i < count / 32
      invariant i <= count / 32
      invariant forall b :: 0 <= b < 32 * i ==> Bit(all, b)
    {
      if words[i] != Ones(32) {
        ghost var k :| 0 <= k < 32 && !words[i][k];
        assert !Bit(all, 32 * i + k);
        return false;
      }
      assert forall b :: 32 * i <= b < 32 * i + 32 ==> all[b / 32] == words[i];
      i := i + 1;
    }
    var last, low := words[count / 32], Ones(count % 32);
    ok := last == low;
    if ok {
      assert forall b :: 32 * i <= b < count ==> all[b / 32] == low;
    } else {
      ghost var k :| 0 <= k < 32 && last[k] != low[k];
      assert Bit(all, 32 * i + k) == last[k];
    }
  }

  // ----- Items ---------------------------------------------------------------------------

  /** The decoders of the function table, except the one for submessages. */
  method ReadScalarItem(stream: IStream, k: Kind) returns (ok: bool, v: Value)
    requires stream.Valid() && GoodKind(k) && !k.Submsg?
    modifies stream
    ensures stream.Valid() && stream.End() == old(stream.End())
    ensures ok == ReadScalar(k, old(stream.Rest())).Some?
    ensures ok ==> v == ReadScalar(k, old(stream.Rest())).value.0
    ensures ok ==> stream.Rest() == ReadScalar(k, old(stream.Rest())).value.1
  {
    hide Scan32, Scan64, FromLittleEndian, IStream.Valid, IStream.Rest, IStream.End;
    v := Num(0);
    match k
    case VarintKind(w) =>
      var value;
      ok, value := stream.DecodeVarint();
      if ok {
        var svalue := if w == Bits64 then Signed(value, W64) else Signed(value % W32, W32);
        var clamped := Narrowed(w, svalue);
        NarrowedExact(w, svalue);
        ok := clamped == svalue;
        v := Num(clamped);
      }
    case UVarintKind(w) =>
      var value;
      ok, value := stream.DecodeVarint();
      if ok {
        var clamped := value % Modulus(w);
        ok := clamped == value;
        v := Num(clamped);
      }
    case SVarintKind(w) =>
      var value;
      ok, value := stream.DecodeVarint();
      if ok {
        var svalue := if value % 2 == 1 then Signed(W64 - 1 - value / 2, W64) else value / 2;
        var clamped := Narrowed(w, svalue);
        NarrowedExact(w, svalue);
        ok := clamped == svalue;
        v := Num(clamped);
      }
    case Fixed32 => ok, v := ReadFixed(stream, 4);
    case Fixed64 => ok, v := ReadFixed(stream, 8);
    case Bytes(cap) =>
      var size;
      ok, size := stream.DecodeVarint32();
      if ok && size > cap {
        ok := false;
      }
      if ok {
        var data;
        ok, data := stream.Read(size);
        v := Raw(data);
      }
    case Str(cap) =>
      var size;
      ok, size := stream.DecodeVarint32();
      if ok && size + 1 > cap {
        ok := false;
      }
      if ok {
        var data;
        ok, data := stream.Read(size);
        v := Raw(data);
      }
    case FixedBytes(n) =>
      var size;
      ok, size := stream.DecodeVarint32();
      if ok {
        if size == 0 {
          v := Raw(Zeros(n));
        } else if size != n {
          ok := false;
        } else {
          var data;
          ok, data := stream.Read(n);
          v := Raw(data);
        }
      }
  }

  /** The cast of a signed value to the signed type of the given width. */
  function Narrowed(w: Width, n: int): int {
    Signed(n % Modulus(w), Modulus(w))
  }

  lemma NarrowedExact(w: Width, n: int)
    ensures Narrowed(w, n) == n <==> InSigned(w, n)
  {
    hide InSigned, Modulus;
    SignedRange(w, n);
    CastExact(n, Modulus(w), n / Modulus(w), n % Modulus(w));
  }

  lemma SignedRange(w: Width, n: int)
    ensures Modulus(w) % 2 == 0 && (InSigned(w, n) <==> -(Modulus(w) / 2) <= n < Modulus(w) / 2)
  {
  }

  lemma CastExact(n: int, m: int, q: int, r: int)
    requires 0 < m && m % 2 == 0 && n == m * q + r && 0 <= r < m
    ensures Signed(r, m) == n <==> -(m / 2) <= n < m / 2
  {
    Multiple(m, q);
  }

  lemma Multiple(m: int, q: int)
    requires 0 < m
    ensures q >= 1 ==> m * q >= m
    ensures q <= -2 ==> m * q <= -2 * m
    ensures q == -1 ==> m * q == -m
  {
    if q >= 1 {
      assert m * (q - 1) >= 0;
    } else if q <= -2 {
      assert m * (-2 - q) >= 0;
    }
  }

  method ReadFixed(stream: IStream, size: nat) returns (ok: bool, v: Value)
    requires stream.Valid() && size in {4, 8}
    modifies stream
    ensures stream.Valid() && stream.End() == old(stream.End())
    ensures ok == Take(old(stream.Rest()), size).Some?
    ensures ok ==> v == Num(FromLittleEndian(Take(old(stream.Rest()), size).value.0))
    ensures ok ==> stream.Rest() == Take(old(stream.Rest()), size).value.1
  {
    hide IStream.Valid, IStream.Rest, IStream.End;
    var data;
    ok, data := stream.Read(size);
    if !ok {
      return false, Num(0);
    }
    BytesToNumber(data);
    if size == 4 {
      v := Num(Word32(data, 0));
    } else {
      v := Num(Word32(data, 0) + W32 * Word32(data, 4));
    }
  }

  /** Four bytes put together, the least significant first. */
  function Word32(b: seq<byte>, at: nat): nat
    requires at + 4 <= |b|
  {
    (b[at] as nat) + 0x100 * (b[at + 1] as nat) + 0x1_0000 * (b[at + 2] as nat) + 0x100_0000 * (b[at + 3] as nat)
  }

  lemma BytesToNumber(b: seq<byte>)
    requires |b| == 4 || |b| == 8
    ensures |b| == 4 ==> FromLittleEndian(b) == Word32(b, 0)
    ensures |b| == 8 ==> FromLittleEndian(b) == Word32(b, 0) + W32 * Word32(b, 4)
  {
    FourBytes(b);
    if |b| == 8 {
      FourBytes(b[4..]);
      assert b[4..][4..] == [];
    } else {
      assert b[4..] == [];
    }
  }

  lemma FourBytes(b: seq<byte>)
    requires |b| >= 4
    ensures FromLittleEndian(b) == Word32(b, 0) + W32 * FromLittleEndian(b[4..])
  {
    assert b[1..][1..] == b[2..] && b[2..][1..] == b[3..] && b[3..][1..] == b[4..];
    assert FromLittleEndian(b[2..]) == b[2] + 256 * FromLittleEndian(b[3..]);
  }

  method ReadItem(stream: IStream, k: Kind, cur: Value) returns (ok: bool, v: Value)
    requires stream.Valid() && GoodKind(k) && CountableKind(k) && HasKind(k, cur)
    modifies stream
    ensures stream.Valid() && stream.End() <= old(stream.End())
    ensures ok == ReadValue(k, cur, old(stream.Rest())).Some?
    ensures ok ==> v == ReadValue(k, cur, old(stream.Rest())).value.0
    ensures ok ==> stream.Rest() == ReadValue(k, cur, old(stream.Rest())).value.1
    ensures ok ==> stream.End() == old(stream.End())
    decreases k
  {
    hide ReadScalar, Delimited, DecodeInto, IStream.Valid, IStream.Rest;
    if !k.Submsg? {
      ok, v := ReadScalarItem(stream, k);
    } else {
      var slots;
      ok, slots := ReadSubmessage(stream, k.fields, cur.slots);
      v := Msg(slots);
    }
  }

  /** `pb_dec_submessage`: the payload is decoded on a stream of its own, which is then skipped
      to its end. */
  method ReadSubmessage(stream: IStream, fs: seq<Field>, cur: seq<Slot>) returns (ok: bool, slots: seq<Slot>)
    requires stream.Valid() && WellFormed(fs) && Countable(fs) && Fits(fs, cur)
    modifies stream
    ensures stream.Valid() && stream.End() <= old(stream.End())
    ensures var d := Delimited(old(stream.Rest()));
      && ok == (d.Some? && DecodeInto(fs, cur, d.value.0).Some?)
      && (ok ==> slots == DecodeInto(fs, cur, d.value.0).value && stream.Rest() == d.value.1)
    ensures ok ==> stream.End() == old(stream.End())
    decreases fs, 4
  {
    hide Delimited, DecodeInto, WellFormed, Fits, Countable;
    slots := cur;
    var sub;
    ok, sub := stream.MakeSubstream();
    if !ok {
      return;
    }
    var msg := new Message(cur);
    ok := DecodeMessage(sub, fs, msg);
    var closed := stream.CloseSubstream(sub);
    slots := msg.slots;
  }

  /** Items of a packed array, until the payload ends or the array is full. */
  method ReadPackedItems(stream: IStream, k: Kind, had: seq<Value>, max: nat) returns (ok: bool, items: seq<Value>)
    requires stream.Valid() && Packable(k) && GoodKind(k)
    requires forall i :: 0 <= i < |had| ==> HasKind(k, had[i])
    modifies stream
    ensures stream.Valid() && stream.End() <= old(stream.End())
    ensures var d := Delimited(old(stream.Rest()));
      && ok == (d.Some? && ReadPacked(k, had, max, d.value.0).Some?)
      && (ok ==> items == ReadPacked(k, had, max, d.value.0).value && stream.Rest() == d.value.1)
    ensures ok ==> stream.End() == old(stream.End())
  {
    hide Delimited, ReadScalar, HasKind, GoodKind;
    items := had;
    var sub;
    ok, sub := stream.MakeSubstream();
    if !ok {
      return;
    }
    ghost var end, payload := sub.End(), sub.Rest();
    ghost var left, state := stream.left, stream.state;
    while sub.left > 0 && |items| < max
      invariant sub.Valid() && sub.End() == end && fresh(sub) && sub.source == stream.source
      invariant stream.Valid() && stream.left == left && stream.state == state
      invariant forall i :: 0 <= i < |items| ==> HasKind(k, items[i])
      invariant ReadPacked(k, had, max, payload) == ReadPacked(k, items, max, sub.Rest())
      decreases sub.left
    {
      var v;
      ok, v := ReadScalarItem(sub, k);
      if !ok {
        return;
      }
      items := items + [v];
    }
    if sub.left != 0 {
      ok := false;
      return;
    }
    ok := stream.CloseSubstream(sub);
  }

  /** `decode_static_field`, for the field the iterator found. */
  method StoreField(stream: IStream, wire: nat, fs: seq<Field>, at: nat, msg: Message) returns (ok: bool)
    requires stream.Valid() && WellFormed(fs) && Countable(fs) && Fits(fs, msg.slots) && at < |fs|
    modifies stream, msg
    ensures stream.Valid() && stream.End() <= old(stream.End())
    ensures ok == ReadField(fs, old(msg.slots), at, wire, old(stream.Rest())).Some?
    ensures ok ==> msg.slots == ReadField(fs, old(msg.slots), at, wire, old(stream.Rest())).value.0
    ensures ok ==> stream.Rest() == ReadField(fs, old(msg.slots), at, wire, old(stream.Rest())).value.1
    ensures ok ==> stream.End() == old(stream.End())
    decreases fs, 1
  {
    hide ReadValue, ReadPacked, Delimited, IStream.Valid, IStream.Rest, IStream.End;
    var f := fs[at];
    FieldParts(fs, msg.slots, at);
    assert (fs decreases to f) && (f decreases to f.kind);
    var v;
    match f.rule
    case Repeated(max) =>
      var items := msg.slots[at].items;
      if wire == DELIMITED && Packable(f.kind) {
        var more;
        ok, more := ReadPackedItems(stream, f.kind, items, max);
        msg.slots := msg.slots[at := Many(more)];
      } else {
        if |items| >= max {
          return false;
        }
        ok, v := ReadItem(stream, f.kind, DefaultOf(f.kind, f.init));
        msg.slots := msg.slots[at := Many(items + [v])];
      }
    case Oneof(group) =>
      ok, v := ReadItem(stream, f.kind, DefaultOf(f.kind, f.init));
      msg.slots := ClearGroup(fs, msg.slots, group)[at := Choice(Some(v))];
    case Optional =>
      ok, v := ReadItem(stream, f.kind, msg.slots[at].v);
      msg.slots := msg.slots[at := Maybe(true, v)];
    case _ =>
      ok, v := ReadItem(stream, f.kind, msg.slots[at].v);
      msg.slots := msg.slots[at := One(v)];
  }

  lemma FieldParts(fs: seq<Field>, slots: seq<Slot>, at: nat)
    requires WellFormed(fs) && Countable(fs) && Fits(fs, slots) && at < |fs|
    ensures GoodField(fs[at]) && FitsSlot(fs[at], slots[at]) && CountableKind(fs[at].kind)
  {
    assert CountableField(fs[at]);
  }

  // ----- The field loop ---------------------------------------------------------------------

  lemma NothingSeen(fs: seq<Field>, words: seq<Word>)
    requires words == [Ones(0), Ones(0)]
    ensures Records(words, fs, {})
  {
  }

  /** The search of the iterator finds what a search from the start finds. */
  lemma FindIsFind(fs: seq<Field>, tag: nat)
    requires WellFormed(fs)
    ensures forall i :: 0 <= i < |fs| && Matches(fs[i], tag) ==> Find(fs, tag) == Some(i)
    ensures Find(fs, tag).Some? ==> Matches(fs[Find(fs, tag).value], tag)
  {
    if Find(fs, tag).Some? {
      assert GoodField(fs[Find(fs, tag).value]);
    }
  }

  lemma RequiredInRange(fs: seq<Field>, at: nat)
    requires Countable(fs) && at < |fs|
    ensures RequiredBefore(fs, at) < MAX_REQUIRED && RequiredBefore(fs, |fs|) < MAX_REQUIRED
  {
    RequiredGrows(fs, at, |fs|);
  }

  /** Marks the field under the iterator, if it is a required one. */
  method Mark(iter: FieldIter, fieldsSeen: array<Word>)
    requires iter.Valid() && iter.fields != [] && fieldsSeen.Length == 2
    modifies fieldsSeen
    ensures var n := RequiredBefore(iter.fields, iter.pos);
      fieldsSeen[..] ==
        if iter.fields[iter.pos].rule.Required? && n < MAX_REQUIRED then SetBit(old(fieldsSeen[..]), n)
        else old(fieldsSeen[..])
  {
    var n := iter.requiredIndex;
    if iter.fields[iter.pos].rule.Required? && n < MAX_REQUIRED {
      fieldsSeen[n / 32] := fieldsSeen[n / 32][n % 32 := true];
    }
  }

  /** Seeks to the end of the list to count its required fields. */
  method CountRequired(iter: FieldIter) returns (count: nat)
    requires iter.Valid()
    modifies iter
    ensures iter.Valid() && count == RequiredBefore(iter.fields, |iter.fields|)
  {
    if iter.fields == [] {
      return 0;
    }
    var fs := iter.fields;
    var last := fs[iter.pos];
    count := iter.requiredIndex;
    var more := iter.Next();
    while more
      invariant iter.Valid()
      invariant if more then 0 < iter.pos else last == fs[|fs| - 1] && count == RequiredBefore(fs, |fs| - 1)
      decreases if more then |fs| - iter.pos else 0
    {
      last := fs[iter.pos];
      count := iter.requiredIndex;
      more := iter.Next();
    }
    if last.rule.Required? {
      count := count + 1;
    }
  }

  method ReadAllFields(stream: IStream, fs: seq<Field>, msg: Message, iter: FieldIter, fieldsSeen: array<Word>)
    returns (ok: bool, ghost seen: set<nat>)
    requires stream.Valid() && WellFormed(fs) && Countable(fs) && Fits(fs, msg.slots)
    requires iter.Valid() && iter.fields == fs && fieldsSeen.Length == 2
    requires fieldsSeen[..] == [Ones(0), Ones(0)]
    modifies stream, msg, iter, fieldsSeen
    ensures stream.Valid() && stream.End() <= old(stream.End()) && iter.Valid()
    ensures var o := ReadFields(fs, old(msg.slots), {}, old(stream.Rest()));
      && ok == o.Some?
      && (ok ==> msg.slots == o.value.slots && seen == o.value.seen)
    ensures ok ==> stream.End() == old(stream.End()) && Records(fieldsSeen[..], fs, seen)
    decreases fs, 2
  {
    hide ReadFields, ReadField, Skip, ReadTag, FieldIter.Valid, IStream.Valid, IStream.Rest, IStream.End,
      Records, SetBit, Bit, Fits, WellFormed, Countable, Matches, Find;
    ghost var was, input := msg.slots, stream.Rest();
    seen := {};
    NothingSeen(fs, fieldsSeen[..]);
    Unfold(fs, msg.slots, seen, stream.Rest());
    while stream.left != 0
      invariant stream.Valid() && stream.End() == old(stream.End())
      invariant iter.Valid() && Fits(fs, msg.slots) && Records(fieldsSeen[..], fs, seen)
      invariant ReadFields(fs, was, {}, input) == ReadFields(fs, msg.slots, seen, stream.Rest())
      invariant stream.Rest() == [] ==>
        ReadFields(fs, was, {}, input) == Some(Outcome(msg.slots, seen, true, stream.Rest()))
      decreases stream.left
    {
      ghost var b := stream.Rest();
      Unfold(fs, msg.slots, seen, b);
      var wire, tag, eof;
      ok, wire, tag, eof := stream.DecodeTag();
      if !ok {
        if eof {
          break;
        }
        return false, seen;
      }
      ghost var rest := stream.Rest();
      var found, steps := iter.Find(tag);
      FindIsFind(fs, tag);
      if !found {
        ok := stream.SkipField(wire);
        if !ok {
          return false, seen;
        }
      } else {
        if fs == [] {
          return false, seen; // the terminator is no field
        }
        RequiredInRange(fs, iter.pos);
        MarkSeen(fieldsSeen[..], fs, seen, iter.pos);
        Mark(iter, fieldsSeen);
        ok := StoreField(stream, wire, fs, iter.pos, msg);
        if !ok {
          return false, seen;
        }
        seen := seen + {iter.pos};
      }
      Unfold(fs, msg.slots, seen, stream.Rest());
    }
    ok := true;
  }

  lemma Finish(fs: seq<Field>, slots: seq<Slot>, b: seq<byte>)
    requires WellFormed(fs) && Fits(fs, slots)
    ensures DecodeInto(fs, slots, b) ==
      match ReadFields(fs, slots, {}, b)
      case None => None
      case Some(o) => if AllRequired(fs, o.seen) then Some(o.slots) else None
  {
  }

  /** What the bits say about the required fields. */
  lemma BitsOfRequired(words: seq<Word>, fs: seq<Field>, seen: set<nat>)
    requires |words| == 2 && Records(words, fs, seen) && Countable(fs)
    ensures var n := RequiredBefore(fs, |fs|);
      && n < MAX_REQUIRED && (n == 0 || n % 32 != 0)
      && (forall b :: n <= b < MAX_REQUIRED ==> !Bit(words, b))
      && (AllRequired(fs, seen) <==> forall b :: 0 <= b < n ==> Bit(words, b))
  {
    hide SeenBit, Bit, AllRequired, RequiredBefore;
    var n := RequiredBefore(fs, |fs|);
    AllBitsAllRequired(fs, seen);
    assert forall b: nat :: b < n ==> (Bit(words, b) <==> SeenBit(fs, seen, b));
  }

  /** `pb_decode_noinit`. */
  method DecodeMessage(stream: IStream, fs: seq<Field>, msg: Message) returns (ok: bool)
    requires stream.Valid() && WellFormed(fs) && Countable(fs) && Fits(fs, msg.slots)
    modifies stream, msg
    ensures stream.Valid() && stream.End() <= old(stream.End())
    ensures ok == DecodeInto(fs, old(msg.slots), old(stream.Rest())).Some?
    ensures ok ==> msg.slots == DecodeInto(fs, old(msg.slots), old(stream.Rest())).value
    ensures ok ==> stream.End() == old(stream.End())
    decreases fs, 3
  {
    hide ReadFields, DecodeInto, AllRequired, FieldIter.Valid, IStream.Valid, IStream.Rest, IStream.End, Fits,
      WellFormed,
      Records, Bit, SeenBit, Countable;
    var fieldsSeen := new Word[2](_ => Ones(0));
    assert fieldsSeen[..] == [Ones(0), Ones(0)];
    var iter := new FieldIter(fs, 0);
    Finish(fs, msg.slots, stream.Rest());
    ghost var seen;
    ok, seen := ReadAllFields(stream, fs, msg, iter, fieldsSeen);
    if !ok {
      return;
    }
    var count := CountRequired(iter);
    ghost var words := fieldsSeen[..];
    BitsOfRequired(words, fs, seen);
    ok := CheckRequired(fieldsSeen, count);
    assert fieldsSeen[..] == words;
  }

  /** `pb_message_set_to_defaults`. */
  method SetToDefaults(fs: seq<Field>, msg: Message)
    requires WellFormed(fs) && |msg.slots| == |fs|
    modifies msg
    ensures msg.slots == Defaults(fs)
  {
    var iter := new FieldIter(fs, 0);
    if fs == [] {
      return;
    }
    var more := true;
    while more
      invariant iter.Valid() && iter.fields == fs && |msg.slots| == |fs|
      invariant forall i :: 0 <= i < (if more then iter.pos else |fs|) ==> msg.slots[i] == DefaultSlot(fs[i])
      decreases if more then |fs| - iter.pos else 0
    {
      msg.slots := msg.slots[iter.pos := DefaultSlot(fs[iter.pos])];
      more := iter.Next();
    }
  }

  /** `pb_decode`. */
  method DecodeFresh(stream: IStream, fs: seq<Field>, msg: Message) returns (ok: bool)
    requires stream.Valid() && WellFormed(fs) && Countable(fs) && |msg.slots| == |fs|
    modifies stream, msg
    ensures stream.Valid() && ok == Decode(fs, old(stream.Rest())).Some?
    ensures ok ==> msg.slots == Decode(fs, old(stream.Rest())).value
  {
    SetToDefaults(fs, msg);
    ok := DecodeMessage(stream, fs, msg);
  }
}
