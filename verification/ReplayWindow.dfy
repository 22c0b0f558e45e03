/**
 The DTLS replay window (section 4.1.2.6 of RFC 6347): a 64-bit map of the last
 64 sequence numbers.  It is compared with a receiver that remembers every
 record it ever accepted.
 */
module ReplayWindow {
  const WINDOW := 64

  // A 64-bit word, least significant bit first.
  type Word = w: seq<bool> | |w| == WINDOW witness Zeros(WINDOW)

  const ZERO: Word := Zeros(WINDOW)

  function Zeros(n: nat): (z: seq<bool>)
    ensures |z| == n && forall i | 0 <= i < n :: !z[i]
  {
    if n == 0 then [] else [false] + Zeros(n - 1)
  }

  // `w << n`: bits shifted past the top are lost.
  function ShiftLeft(w: Word, n: nat): Word
    requires n < WINDOW
  {
    Zeros(n) + w[..WINDOW - n]
  }

  datatype Bitmap = Bitmap(bits: Word, maxSeqNum: nat) {

    // `dtls1_bitmap_should_discard`.
    predicate ShouldDiscard(seqNum: nat) {
      if seqNum > maxSeqNum then false
      else
        var idx := maxSeqNum - seqNum;
        idx >= WINDOW || bits[idx]
    }

    // `dtls1_bitmap_record`.
    function Record(seqNum: nat): Bitmap {
      var slid := Slide(seqNum);
      var idx := slid.maxSeqNum - seqNum;
      if idx < WINDOW then slid.(bits := slid.bits[idx := true]) else slid
    }

    function Slide(seqNum: nat): (slid: Bitmap)
      ensures slid.maxSeqNum >= seqNum
    {
      if seqNum > maxSeqNum then
        var shift := seqNum - maxSeqNum;
        Bitmap(if shift >= WINDOW then ZERO else ShiftLeft(bits, shift), seqNum)
      else this
    }

    // Bit `i` of the map stands for `maxSeqNum - i`.
    ghost predicate Remembers(seen: set<nat>) {
      && (forall s | s in seen :: s <= maxSeqNum)
      && (maxSeqNum == 0 || maxSeqNum in seen)
      && (forall i | 0 <= i < WINDOW :: bits[i] <==> maxSeqNum - i in seen)
    }
  }

  const EMPTY := Bitmap(ZERO, 0)

  // Recording a number remembers it and forgets nothing inside the window.
  lemma RecordRemembers(m: Bitmap, seen: set<nat>, seqNum: nat)
    requires m.Remembers(seen) && !m.ShouldDiscard(seqNum)
    ensures m.Record(seqNum).Remembers(seen + {seqNum})
  {
    var m' := m.Record(seqNum);
    forall i | 0 <= i < WINDOW
      ensures m'.bits[i] <==> m'.maxSeqNum - i in seen + {seqNum}
    {
      var shift := m'.maxSeqNum - m.maxSeqNum;
      if shift <= i {
        assert m.bits[i - shift] <==> m.maxSeqNum - (i - shift) in seen;
      }
    }
  }

  // The epoch is the top 16 bits of the 64-bit record number.
  function EpochOf(seqNum: nat): nat {
    seqNum / 0x1_0000_0000_0000
  }

  // An arriving record, by its number and by what decrypting it would give, or
  // a change of read cipher.
  datatype ReadEvent =
    | Arrives(seqNum: nat, outcome: Decryption)
    | NewReadCipher

  datatype Decryption = Forged | TooLong | Authentic

  datatype OpenResult = Discard | Fatal | Accept

  datatype Window = Window(epoch: nat, bitmap: Bitmap) {
    function Open(seqNum: nat, outcome: Decryption): OpenResult {
      if EpochOf(seqNum) != epoch || bitmap.ShouldDiscard(seqNum) then Discard
      else match outcome
        case Forged => Discard
        case TooLong => Fatal
        case Authentic => Accept
    }

    function Step(e: ReadEvent): Window {
      match e
      case Arrives(seqNum, outcome) =>
        if Open(seqNum, outcome).Accept? then this.(bitmap := bitmap.Record(seqNum)) else this
      case NewReadCipher => Window(epoch + 1, EMPTY)
    }
  }

  const START := Window(0, EMPTY)

  // The numbers accepted by a run, in order.
  function Accepted(w: Window, events: seq<ReadEvent>): seq<nat>
    decreases |events|
  {
    if events == [] then []
    else
      var later := Accepted(w.Step(events[0]), events[1..]);
      if events[0].Arrives? && w.Open(events[0].seqNum, events[0].outcome).Accept?
      then [events[0].seqNum] + later else later
  }

  // The receiver that remembers everything: it refuses a number of another
  // epoch, one it has accepted before, and one that is 64 or more behind.
  datatype Memory = Memory(epoch: nat, seen: set<nat>) {
    ghost predicate Refuses(seqNum: nat) {
      || EpochOf(seqNum) != epoch
      || seqNum in seen
      || exists s :: s in seen && EpochOf(s) == epoch && s > seqNum && s - seqNum >= WINDOW
    }

    ghost function Open(seqNum: nat, outcome: Decryption): OpenResult {
      if Refuses(seqNum) then Discard
      else match outcome
        case Forged => Discard
        case TooLong => Fatal
        case Authentic => Accept
    }

    ghost function Step(e: ReadEvent): Memory {
      match e
      case Arrives(seqNum, outcome) =>
        if Open(seqNum, outcome).Accept? then this.(seen := seen + {seqNum}) else this
      case NewReadCipher => this.(epoch := epoch + 1)
    }
  }

  ghost predicate Agree(w: Window, m: Memory) {
    && w.epoch == m.epoch
    && (forall s | s in m.seen :: EpochOf(s) <= w.epoch)
    && w.bitmap.Remembers(set s | s in m.seen && EpochOf(s) == w.epoch)
  }

  // The window decides every record exactly as the receiver with unlimited
  // memory does, and the two stay in agreement.
  lemma WindowIsMemory(w: Window, m: Memory, e: ReadEvent)
    requires Agree(w, m)
    ensures e.Arrives? ==> w.Open(e.seqNum, e.outcome) == m.Open(e.seqNum, e.outcome)
    ensures Agree(w.Step(e), m.Step(e))
  {
    var current := set s | s in m.seen && EpochOf(s) == w.epoch;
    if e.Arrives? {
      var n := e.seqNum;
      if EpochOf(n) == w.epoch {
        assert n in m.seen <==> n in current;
        assert forall s | s in m.seen && EpochOf(s) == w.epoch :: s in current;
        if n <= w.bitmap.maxSeqNum {
          var idx := w.bitmap.maxSeqNum - n;
          if idx >= WINDOW {
            assert w.bitmap.maxSeqNum in current;
          } else {
            assert w.bitmap.bits[idx] <==> w.bitmap.maxSeqNum - idx in current;
          }
        }
        assert w.bitmap.ShouldDiscard(n) <==> m.Refuses(n);
      }
      if w.Open(n, e.outcome).Accept? {
        RecordRemembers(w.bitmap, current, n);
        assert (set s | s in m.seen + {n} && EpochOf(s) == w.epoch) == current + {n};
      }
    } else {
      assert (set s | s in m.seen && EpochOf(s) == w.epoch + 1) == {};
    }
  }

  ghost function Decisions(w: Window, events: seq<ReadEvent>): seq<OpenResult>
    decreases |events|
  {
    if events == [] then []
    else
      (if events[0].Arrives? then [w.Open(events[0].seqNum, events[0].outcome)] else [])
      + Decisions(w.Step(events[0]), events[1..])
  }

  ghost function MemoryDecisions(m: Memory, events: seq<ReadEvent>): seq<OpenResult>
    decreases |events|
  {
    if events == [] then []
    else
      (if events[0].Arrives? then [m.Open(events[0].seqNum, events[0].outcome)] else [])
      + MemoryDecisions(m.Step(events[0]), events[1..])
  }

  // Over any run of arriving records and cipher changes, the 64-bit window
  // takes the decisions of the receiver that remembers everything: it drops no
  // unseen record less than 64 behind, and lets no replay through.
  lemma {:induction false} SameDecisions(w: Window, m: Memory, events: seq<ReadEvent>)
    requires Agree(w, m)
    ensures Decisions(w, events) == MemoryDecisions(m, events)
    decreases |events|
  {
    if events != [] {
      WindowIsMemory(w, m, events[0]);
      SameDecisions(w.Step(events[0]), m.Step(events[0]), events[1..]);
    }
  }

  lemma {:induction false} NeverAcceptedAgain(w: Window, m: Memory, events: seq<ReadEvent>, k: nat)
    requires Agree(w, m) && k < |Accepted(w, events)|
    ensures Accepted(w, events)[k] !in m.seen
    decreases |events|
  {
    var e := events[0];
    WindowIsMemory(w, m, e);
    if e.Arrives? && w.Open(e.seqNum, e.outcome).Accept? {
      if k > 0 {
        NeverAcceptedAgain(w.Step(e), m.Step(e), events[1..], k - 1);
      }
    } else {
      NeverAcceptedAgain(w.Step(e), m.Step(e), events[1..], k);
    }
  }

  lemma {:induction false} AcceptedOnce(w: Window, m: Memory, events: seq<ReadEvent>, i: nat, j: nat)
    requires Agree(w, m) && i < j < |Accepted(w, events)|
    ensures Accepted(w, events)[i] != Accepted(w, events)[j]
    decreases |events|
  {
    var e := events[0];
    WindowIsMemory(w, m, e);
    if e.Arrives? && w.Open(e.seqNum, e.outcome).Accept? {
      if i > 0 {
        AcceptedOnce(w.Step(e), m.Step(e), events[1..], i - 1, j - 1);
      } else {
        NeverAcceptedAgain(w.Step(e), m.Step(e), events[1..], j - 1);
      }
    } else {
      AcceptedOnce(w.Step(e), m.Step(e), events[1..], i, j);
    }
  }

  // From the start of a connection, no (epoch, sequence) pair is accepted twice.
  lemma NoReplay(events: seq<ReadEvent>, i: nat, j: nat)
    requires i < j < |Accepted(START, events)|
    ensures Accepted(START, events)[i] != Accepted(START, events)[j]
  {
    AcceptedOnce(START, Memory(0, {}), events, i, j);
  }

  /** The read half of a DTLS connection's record layer. */
  class ReplayGuard {
    var epoch: nat
    var bits: Word
    var maxSeqNum: nat

    function View(): Window
      reads this
    {
      Window(epoch, Bitmap(bits, maxSeqNum))
    }

    constructor ()
      ensures View() == START
    {
      epoch, bits, maxSeqNum := 0, ZERO, 0;
    }

    /**
     `dtls1_set_read_state`: refused while a handshake message other than the
     current one, or a ChangeCipherSpec, is buffered.
     */
    method SetReadState(hasIncoming: bool, hasChangeCipherSpec: bool) returns (ok: bool)
      modifies this
      ensures ok <==> !hasIncoming && !hasChangeCipherSpec
      ensures View() == if ok then old(View()).Step(NewReadCipher) else old(View())
    {
      if hasIncoming || hasChangeCipherSpec {
        return false;
      }
      epoch := epoch + 1;
      bits, maxSeqNum := ZERO, 0;
      return true;
    }

    method RecordNumber(seqNum: nat)
      modifies this
      ensures View() == Window(old(epoch), old(View()).bitmap.Record(seqNum))
    {
      if seqNum > maxSeqNum {
        var shift := seqNum - maxSeqNum;
        if shift >= WINDOW {
          bits := ZERO;
        } else {
          bits := ShiftLeft(bits, shift);
        }
        maxSeqNum := seqNum;
      }
      var idx := maxSeqNum - seqNum;
      if idx < WINDOW {
        bits := bits[idx := true];
      }
    }

    /** `dtls_open_record`, after the record header has been decoded. */
    method OpenRecord(seqNum: nat, outcome: Decryption) returns (r: OpenResult)
      modifies this
      ensures r == old(View()).Open(seqNum, outcome)
      ensures View() == old(View()).Step(Arrives(seqNum, outcome))
    {
      if EpochOf(seqNum) != epoch || View().bitmap.ShouldDiscard(seqNum) {
        return Discard;
      }
      match outcome
      case Forged => return Discard;
      case TooLong => return Fatal;
      case Authentic =>
        RecordNumber(seqNum);
        return Accept;
    }
  }
}
