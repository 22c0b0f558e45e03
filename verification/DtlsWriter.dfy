/**
 Sealing DTLS records: which epoch and sequence number each record is sent
 under (`dtls_seal_record`, `dtls1_set_write_state`).  `Numbers` is the
 specification; `Writer` is the mutable write state of a connection.
 */
module DtlsWriter {
  import opened Wrappers

  const RECORD_HEADER := 13
  const SEQUENCE_LIMIT := 0x1_0000_0000_0000

  // A write cipher: the two lengths the record layer asks of it, and what
  // sealing gives, by the record's number and kind, its plaintext and the room
  // there is: the length of the ciphertext, or failure.
  datatype Aead = Aead(maxOverhead: nat, nonceLen: nat,
                       seal: (RecordNumber, nat, seq<byte>, nat) -> Option<nat>) {
    ghost predicate Valid() {
      && nonceLen <= maxOverhead
      && forall n: RecordNumber, kind: nat, plain: seq<byte>, maxOut: nat ::
           seal(n, kind, plain, maxOut).Some? ==>
             seal(n, kind, plain, maxOut).value <= |plain| + maxOverhead && seal(n, kind, plain, maxOut).value <= maxOut
    }
  }

  datatype UseEpoch = PreviousEpoch | CurrentEpoch

  datatype RecordNumber = RecordNumber(epoch: nat, seqNum: nat)

  // What happens to the write state: a cipher change, or an attempt to seal a
  // record, for which the cipher reports a ciphertext length or fails.
  datatype WriteEvent =
    | NewCipher
    | Seal(use: UseEpoch, ciphertextLen: Option<nat>)

  datatype Numbers = Numbers(epoch: nat, seqNum: nat, lastSeqNum: nat) {
    predicate Valid() {
      seqNum < SEQUENCE_LIMIT && lastSeqNum < SEQUENCE_LIMIT
    }

    // The previous epoch is only used when there is one.
    predicate Allows(e: WriteEvent) {
      e.Seal? && e.use.PreviousEpoch? ==> epoch >= 1
    }

    function Target(use: UseEpoch): (n: RecordNumber)
      requires Allows(Seal(use, None))
    {
      if use.PreviousEpoch? then RecordNumber(epoch - 1, lastSeqNum) else RecordNumber(epoch, seqNum)
    }

    // The six-byte counter wraps around to zero.
    function Bump(use: UseEpoch): Numbers {
      if use.PreviousEpoch? then this.(lastSeqNum := (lastSeqNum + 1) % SEQUENCE_LIMIT)
      else this.(seqNum := (seqNum + 1) % SEQUENCE_LIMIT)
    }

    predicate Wraps(e: WriteEvent)
      requires Allows(e)
    {
      e.Seal? && e.ciphertextLen.Some? && Target(e.use).seqNum == SEQUENCE_LIMIT - 1
    }

    function Step(e: WriteEvent): Numbers
      requires Allows(e)
    {
      match e
      case NewCipher => Numbers(epoch + 1, 0, seqNum)
      case Seal(use, ct) => if ct.None? then this else Bump(use)
    }

    // The number of the record the event produces, if it produces one.
    function Emits(e: WriteEvent): Option<RecordNumber>
      requires Allows(e)
    {
      if e.Seal? && e.ciphertextLen.Some? && !Wraps(e) && e.ciphertextLen.value < 0x1_0000
      then Some(Target(e.use)) else None
    }
  }

  ghost predicate Runs(n: Numbers, events: seq<WriteEvent>)
    decreases |events|
  {
    events == [] || (n.Allows(events[0]) && Runs(n.Step(events[0]), events[1..]))
  }

  ghost predicate NeverWraps(n: Numbers, events: seq<WriteEvent>)
    requires Runs(n, events)
    decreases |events|
  {
    events == [] || (!n.Wraps(events[0]) && NeverWraps(n.Step(events[0]), events[1..]))
  }

  // The numbers of the records produced by a run, in order.
  ghost function Sent(n: Numbers, events: seq<WriteEvent>): seq<RecordNumber>
    requires Runs(n, events)
    decreases |events|
  {
    if events == [] then []
    else
      var later := Sent(n.Step(events[0]), events[1..]);
      var now := n.Emits(events[0]);
      if now.Some? then [now.value] + later else later
  }

  // `r` may still be used by some later record of a run from `n`.
  predicate Unused(n: Numbers, r: RecordNumber) {
    || r.epoch > n.epoch
    || (r.epoch == n.epoch && r.seqNum >= n.seqNum)
    || (r.epoch + 1 == n.epoch && r.seqNum >= n.lastSeqNum)
  }

  lemma {:induction false} SentUnused(n: Numbers, events: seq<WriteEvent>, k: nat)
    requires n.Valid() && Runs(n, events) && NeverWraps(n, events)
    requires k < |Sent(n, events)|
    ensures Unused(n, Sent(n, events)[k])
    decreases |events|
  {
    var n' := n.Step(events[0]);
    if n.Emits(events[0]).None? {
      SentUnused(n', events[1..], k);
    } else if k > 0 {
      SentUnused(n', events[1..], k - 1);
    }
  }

  // No two records are sent under the same epoch and sequence number, however
  // cipher changes, failed seals and seals under either epoch are mixed, as
  // long as no counter wraps.
  lemma {:induction false} NumbersAreUnique(n: Numbers, events: seq<WriteEvent>, i: nat, j: nat)
    requires n.Valid() && Runs(n, events) && NeverWraps(n, events)
    requires i < j < |Sent(n, events)|
    ensures Sent(n, events)[i] != Sent(n, events)[j]
    decreases |events|
  {
    var n' := n.Step(events[0]);
    if n.Emits(events[0]).None? {
      NumbersAreUnique(n', events[1..], i, j);
    } else if i > 0 {
      NumbersAreUnique(n', events[1..], i - 1, j - 1);
    } else {
      SentUnused(n', events[1..], j - 1);
    }
  }

  function Repeat(e: WriteEvent, count: nat): (es: seq<WriteEvent>)
    ensures |es| == count && forall k | 0 <= k < count :: es[k] == e
  {
    seq(count, _ => e)
  }

  // `count` seals from sequence number `seqNum` use the next `count` numbers.
  lemma {:induction false} SealsCountUp(n: Numbers, ct: nat, count: nat)
    requires n.seqNum + count < SEQUENCE_LIMIT && ct < 0x1_0000
    ensures var es := Repeat(Seal(CurrentEpoch, Some(ct)), count);
            Runs(n, es) && |Sent(n, es)| == count
            && forall k | 0 <= k < count :: Sent(n, es)[k] == RecordNumber(n.epoch, n.seqNum + k)
    decreases count
  {
    if count > 0 {
      var e := Seal(CurrentEpoch, Some(ct));
      assert Repeat(e, count)[1..] == Repeat(e, count - 1);
      SealsCountUp(n.Step(e), ct, count - 1);
    }
  }

  // The hypothesis is needed: the seal that wraps fails, but leaves the counter
  // at zero, so the next one repeats the first number of the epoch.
  lemma {:induction false} WrapRepeats(epoch: nat, ct: nat)
    requires ct < 0x1_0000
    ensures var n := Numbers(epoch, SEQUENCE_LIMIT - 1, 0);
            var es := Repeat(Seal(CurrentEpoch, Some(ct)), 2);
            Runs(n, es) && Sent(n, es) == [RecordNumber(epoch, 0)]
  {
    var n := Numbers(epoch, SEQUENCE_LIMIT - 1, 0);
    var e := Seal(CurrentEpoch, Some(ct));
    var n' := Numbers(epoch, 0, 0);
    assert n.Step(e) == n' && n.Emits(e) == None;
    assert Repeat(e, 2)[1..] == [e];
    assert n'.Emits(e) == Some(RecordNumber(epoch, 0));
    assert Sent(n', [e]) == [RecordNumber(epoch, 0)] + Sent(n'.Step(e), []);
  }

  // The numbers that the ciphers of a run seal under, in order: those of the
  // records sent, those of records too long for their header, and the last
  // number of an epoch, whose seal then fails.
  ghost function Used(n: Numbers, events: seq<WriteEvent>): seq<RecordNumber>
    requires Runs(n, events)
    decreases |events|
  {
    if events == [] then []
    else
      var e := events[0];
      (if e.Seal? && e.ciphertextLen.Some? then [n.Target(e.use)] else []) + Used(n.Step(e), events[1..])
  }

  // Some number is used twice.
  ghost predicate Repeats(used: seq<RecordNumber>) {
    exists i, j :: 0 <= i < j < |used| && used[i] == used[j]
  }

  // The counter of some epoch wraps, and the epoch goes on.
  ghost predicate WrapsAndGoesOn(used: seq<RecordNumber>) {
    exists i, j :: 0 <= i < j < |used| && used[i].seqNum == SEQUENCE_LIMIT - 1 && used[j].epoch == used[i].epoch
  }

  function CountIn(used: seq<RecordNumber>, epoch: nat): nat {
    if used == [] then 0
    else CountIn(used[..|used| - 1], epoch) + if used[|used| - 1].epoch == epoch then 1 else 0
  }

  // Where a counter stands after so many uses.
  function Wrapped(count: nat): (c: nat)
    ensures c < SEQUENCE_LIMIT
  {
    count % SEQUENCE_LIMIT
  }

  lemma WrappedNext(count: nat)
    ensures Wrapped(0) == 0 && Wrapped(count + 1) == (Wrapped(count) + 1) % SEQUENCE_LIMIT
  {
  }

  // Between two counts at which a counter stands alike, it has stood at its last value.
  lemma LastBetween(a: nat, b: nat) returns (k: nat)
    requires a < b && Wrapped(a) == Wrapped(b)
    ensures a <= k < b && Wrapped(k) == SEQUENCE_LIMIT - 1
  {
    k := a - Wrapped(a) + (SEQUENCE_LIMIT - 1);
  }

  // Once it has stood at its last value, it has stood everywhere.
  lemma Before(a: nat, b: nat) returns (k: nat)
    requires a < b && Wrapped(a) == SEQUENCE_LIMIT - 1
    ensures k < b && Wrapped(k) == Wrapped(b)
  {
    k := b - SEQUENCE_LIMIT;
  }

  // Each counter is how often its epoch has been used, up to wrapping.
  ghost predicate Counted(n: Numbers, before: seq<RecordNumber>) {
    && n.seqNum == Wrapped(CountIn(before, n.epoch))
    && (n.epoch >= 1 ==> n.lastSeqNum == Wrapped(CountIn(before, n.epoch - 1)))
    && (forall epoch | epoch > n.epoch :: CountIn(before, epoch) == 0)
  }

  lemma CountSnoc(used: seq<RecordNumber>, r: RecordNumber, epoch: nat)
    ensures CountIn(used + [r], epoch) == CountIn(used, epoch) + if r.epoch == epoch then 1 else 0
  {
    assert (used + [r])[..|used|] == used;
  }

  lemma CountedStep(n: Numbers, before: seq<RecordNumber>, e: WriteEvent)
    requires Counted(n, before) && n.Allows(e)
    ensures Counted(n.Step(e), before + if e.Seal? && e.ciphertextLen.Some? then [n.Target(e.use)] else [])
  {
    hide Wrapped, CountIn;
    WrappedNext(0);
    if e.Seal? && e.ciphertextLen.Some? {
      var r := n.Target(e.use);
      WrappedNext(CountIn(before, r.epoch));
      forall epoch: nat {
        CountSnoc(before, r, epoch);
      }
    } else {
      assert before + [] == before;
    }
  }

  // Every number is how often its epoch was used before, up to wrapping.
  lemma {:induction false} UsedInOrder(n: Numbers, before: seq<RecordNumber>, events: seq<WriteEvent>, j: nat)
    requires Runs(n, events) && Counted(n, before) && j < |Used(n, events)|
    ensures var used := Used(n, events);
            used[j].seqNum == Wrapped(CountIn(before + used[..j], used[j].epoch))
    decreases |events|
  {
    hide Wrapped, CountIn;
    var e, used := events[0], Used(n, events);
    var now := if e.Seal? && e.ciphertextLen.Some? then [n.Target(e.use)] else [];
    CountedStep(n, before, e);
    if j < |now| {
      assert before + used[..0] == before;
    } else {
      UsedInOrder(n.Step(e), before + now, events[1..], j - |now|);
      assert before + used[..j] == before + now + Used(n.Step(e), events[1..])[..j - |now|];
    }
  }

  lemma {:induction false} CountMore(used: seq<RecordNumber>, i: nat, j: nat, epoch: nat)
    requires i < j <= |used|
    ensures CountIn(used[..i], epoch) + (if used[i].epoch == epoch then 1 else 0) <= CountIn(used[..j], epoch)
    decreases j
  {
    assert used[..j] == used[..j - 1] + [used[j - 1]];
    CountSnoc(used[..j - 1], used[j - 1], epoch);
    if i < j - 1 {
      CountMore(used, i, j - 1, epoch);
    }
  }

  // The use of an epoch that `k` uses come before.
  lemma {:induction false} Nth(used: seq<RecordNumber>, j: nat, epoch: nat, k: nat) returns (i: nat)
    requires j <= |used| && k < CountIn(used[..j], epoch)
    ensures i < j && used[i].epoch == epoch && CountIn(used[..i], epoch) == k
    decreases j
  {
    assert used[..j] == used[..j - 1] + [used[j - 1]];
    CountSnoc(used[..j - 1], used[j - 1], epoch);
    if k < CountIn(used[..j - 1], epoch) {
      i := Nth(used, j - 1, epoch, k);
    } else {
      i := j - 1;
    }
  }

  ghost predicate InOrder(used: seq<RecordNumber>) {
    forall j | 0 <= j < |used| :: used[j].seqNum == Wrapped(CountIn(used[..j], used[j].epoch))
  }

  lemma RepeatsNeedWrap(used: seq<RecordNumber>)
    requires InOrder(used) && Repeats(used)
    ensures WrapsAndGoesOn(used)
  {
    hide Wrapped, CountIn;
    var i: nat, j: nat :| i < j < |used| && used[i] == used[j];
    var epoch := used[i].epoch;
    CountMore(used, i, j, epoch);
    var k := LastBetween(CountIn(used[..i], epoch), CountIn(used[..j], epoch));
    var last := Nth(used, j, epoch, k);
  }

  lemma WrapRepeatsOne(used: seq<RecordNumber>)
    requires InOrder(used) && WrapsAndGoesOn(used)
    ensures Repeats(used)
  {
    hide Wrapped, CountIn;
    var i: nat, j: nat :|
      i < j < |used| && used[i].seqNum == SEQUENCE_LIMIT - 1 && used[j].epoch == used[i].epoch;
    var epoch := used[i].epoch;
    CountMore(used, i, j, epoch);
    var k := Before(CountIn(used[..i], epoch), CountIn(used[..j], epoch));
    var first := Nth(used, j, epoch, k);
    assert used[first] == used[j];
  }

  // From the start of a connection, a number is used twice exactly if a counter
  // wraps and its epoch goes on.
  lemma RepeatsExactly(events: seq<WriteEvent>)
    requires Runs(Numbers(0, 0, 0), events)
    ensures var used := Used(Numbers(0, 0, 0), events); Repeats(used) <==> WrapsAndGoesOn(used)
  {
    hide Wrapped, Used, Repeats, WrapsAndGoesOn;
    var used := Used(Numbers(0, 0, 0), events);
    WrappedNext(0);
    forall j: nat | j < |used|
      ensures used[j].seqNum == Wrapped(CountIn(used[..j], used[j].epoch))
    {
      UsedInOrder(Numbers(0, 0, 0), [], events, j);
      assert [] + used[..j] == used[..j];
    }
    if Repeats(used) {
      RepeatsNeedWrap(used);
    }
    if WrapsAndGoesOn(used) {
      WrapRepeatsOne(used);
    }
  }

  // Every record sent has a number that was used.
  lemma {:induction false} SentIsUsed(n: Numbers, events: seq<WriteEvent>, r: RecordNumber)
    requires Runs(n, events) && r in Sent(n, events)
    ensures r in Used(n, events)
    decreases |events|
  {
    var n' := n.Step(events[0]);
    if n.Emits(events[0]) != Some(r) {
      SentIsUsed(n', events[1..], r);
    }
  }

  const CHANGE_CIPHER_SPEC := 20
  const HANDSHAKE := 22

  // A record as it is sent: the number it is protected under, what it protects
  // and its length on the wire.
  datatype SealedRecord = SealedRecord(number: RecordNumber, kind: nat, plain: seq<byte>, wireLen: nat)

  // The ciphers of the current epoch and of the one before.
  datatype Ciphers = Ciphers(current: Aead, previous: Aead) {
    function For(use: UseEpoch): Aead {
      if use.PreviousEpoch? then previous else current
    }

    ghost predicate Valid() {
      current.Valid() && previous.Valid()
    }

    function MaxSealOverhead(use: UseEpoch): nat {
      RECORD_HEADER + For(use).maxOverhead
    }

    function SealPrefixLen(use: UseEpoch): nat {
      RECORD_HEADER + For(use).nonceLen
    }
  }

  lemma PrefixInOverhead(c: Ciphers, use: UseEpoch)
    requires c.Valid()
    ensures c.SealPrefixLen(use) <= c.MaxSealOverhead(use)
  {
  }

  // What an attempt to seal comes to: it fails without a trace when there is no
  // room for a header, and is up to the cipher otherwise.
  function Attempt(c: Ciphers, n: Numbers, kind: nat, plain: seq<byte>, maxOut: nat, use: UseEpoch): (e: WriteEvent)
    requires n.Allows(Seal(use, None))
    ensures n.Allows(e)
  {
    Seal(use, if maxOut < RECORD_HEADER then None
              else c.For(use).seal(n.Target(use), kind, plain, maxOut - RECORD_HEADER))
  }

  /** The write half of a DTLS connection's record layer. */
  class Writer {
    var epoch: nat
    var writeSequence: nat
    var lastWriteSequence: nat
    var aead: Aead
    var lastAead: Aead

    ghost predicate Valid()
      reads this
    {
      View().Valid() && Keys().Valid()
    }

    function View(): Numbers
      reads this
    {
      Numbers(epoch, writeSequence, lastWriteSequence)
    }

    constructor (initial: Aead)
      requires initial.Valid()
      ensures Valid() && View() == Numbers(0, 0, 0)
    {
      epoch, writeSequence, lastWriteSequence := 0, 0, 0;
      aead, lastAead := initial, initial;
    }

    /** `dtls1_set_write_state`. */
    method SetWriteState(next: Aead)
      requires Valid() && next.Valid()
      modifies this
      ensures Valid() && View() == old(View()).Step(NewCipher)
      ensures aead == next && lastAead == old(aead)
    {
      epoch := epoch + 1;
      lastWriteSequence := writeSequence;
      writeSequence := 0;
      lastAead := aead;
      aead := next;
    }

    function Keys(): Ciphers
      reads `aead, `lastAead
    {
      Ciphers(aead, lastAead)
    }

    /**
     `dtls_seal_record`: seals `plain` into a buffer of `maxOut` bytes.  It fails
     exactly when the cipher does, the counter wraps or the length does not fit
     the header.
     */
    method SealRecord(kind: nat, plain: seq<byte>, maxOut: nat, use: UseEpoch) returns (sealed: Option<SealedRecord>)
      requires Valid() && (use.PreviousEpoch? ==> epoch >= 1)
      modifies `writeSequence, `lastWriteSequence
      ensures Valid()
      ensures var event := Attempt(Keys(), old(View()), kind, plain, maxOut, use);
              && View() == old(View()).Step(event)
              && (sealed.Some? <==> old(View()).Emits(event).Some?)
              && (sealed.Some? ==>
                    && sealed.value.number == old(View()).Emits(event).value
                    && sealed.value.wireLen == RECORD_HEADER + event.ciphertextLen.value)
      ensures sealed.Some? ==> sealed.value.number == old(View()).Target(use)
      ensures sealed.Some? ==> sealed.value.kind == kind && sealed.value.plain == plain
      ensures sealed.Some? ==> RECORD_HEADER <= sealed.value.wireLen <= maxOut
      ensures sealed.Some? ==> sealed.value.wireLen <= |plain| + Keys().MaxSealOverhead(use)
    {
      if maxOut < RECORD_HEADER {
        return None;
      }
      var number := View().Target(use);
      var ciphertextLen := Keys().For(use).seal(number, kind, plain, maxOut - RECORD_HEADER);
      if ciphertextLen.None? {
        return None;
      }
      var next := (number.seqNum + 1) % SEQUENCE_LIMIT;
      if use.PreviousEpoch? {
        lastWriteSequence := next;
      } else {
        writeSequence := next;
      }
      if next == 0 {
        return None;
      }
      if ciphertextLen.value >= 0x1_0000 {
        return None;
      }
      return Some(SealedRecord(number, kind, plain, RECORD_HEADER + ciphertextLen.value));
    }
  }
}
