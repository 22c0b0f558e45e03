/** The lock-free reference count, against the one behind a lock
    (BoringSSL/crypto/refcount_c11.c:37-65, BoringSSL/crypto/refcount_lock.c:29-51,
    BoringSSL/crypto/internal.h:366-388). */
module RefCount {
  const MAX: nat := 0xffff_ffff

  datatype Op = Inc | Dec

  /** `Returned(true)` is a decrement that reports zero. */
  datatype Outcome = Returned(zero: bool) | Aborted

  // ----- The locked version is the specification ---------------------------------------

  function LockedCount(count: nat, op: Op): nat {
    match op
    case Inc => if count < MAX then count + 1 else count
    case Dec => if 0 < count < MAX then count - 1 else count
  }

  function LockedOutcome(count: nat, op: Op): Outcome {
    match op
    case Inc => Returned(false)
    case Dec => if count == 0 then Aborted else Returned(LockedCount(count, op) == 0)
  }

  /** An operation of a thread, as it took effect. */
  datatype Entry = Entry(thread: nat, op: Op, outcome: Outcome)

  /** The count after the locked operations of `log`, one after another. */
  function Replay(count: nat, log: seq<Entry>): nat {
    if log == [] then count
    else LockedCount(Replay(count, log[..|log| - 1]), log[|log| - 1].op)
  }

  /** Every operation of `log` had the outcome that the locked version gives at its turn. */
  predicate Agrees(count: nat, log: seq<Entry>) {
    forall k :: 0 <= k < |log| ==> log[k].outcome == LockedOutcome(Replay(count, log[..k]), log[k].op)
  }

  // ----- Threads running the compare-and-swap loops ------------------------------------

  /** A thread between two atomic operations remembers the value it expects. */
  datatype Thread = Idle | Trying(op: Op, expected: nat)

  /** `held` counts the references each thread owns; the one a decrement gives up belongs to the
      operation until it takes effect. */
  datatype System = System(count: nat, threads: seq<Thread>, held: seq<nat>, log: seq<Entry>, crashed: bool)

  /** A call, with its first load; one compare-and-swap, which may fail for no reason; or a
      reference handed from one thread to another. */
  datatype Event =
    | Call(thread: nat, op: Op)
    | Swap(thread: nat, spurious: bool)
    | Hand(from: nat, to: nat)

  predicate Shape(s: System) {
    |s.threads| == |s.held|
  }

  /** What the interface asks of callers: an operation on the count needs a reference. */
  predicate Allowed(s: System, e: Event)
    requires Shape(s)
  {
    && !s.crashed
    && match e
       case Call(i, _) => i < |s.threads| && s.threads[i].Idle? && s.held[i] > 0
       case Swap(i, _) => i < |s.threads| && s.threads[i].Trying?
       case Hand(i, j) => i < |s.threads| && j < |s.threads| && i != j && s.threads[i].Idle? && s.held[i] > 0
  }

  /** The operation takes effect with this outcome. */
  function Finish(s: System, i: nat, op: Op, count: nat, outcome: Outcome): System
    requires Shape(s) && i < |s.threads|
  {
    s.(count := count, threads := s.threads[i := Idle],
       held := if op == Inc then s.held[i := s.held[i] + 1] else s.held,
       log := s.log + [Entry(i, op, outcome)],
       crashed := outcome == Aborted)
  }

  /** A value was read: the loops leave at the values they do not change, and try otherwise. */
  function Read(s: System, i: nat, op: Op): System
    requires Shape(s) && i < |s.threads|
  {
    if op == Dec && s.count == 0 then Finish(s, i, op, s.count, Aborted)
    else if s.count == MAX then Finish(s, i, op, s.count, Returned(false))
    else s.(threads := s.threads[i := Trying(op, s.count)])
  }

  function Step(s: System, e: Event): (t: System)
    requires Shape(s) && Allowed(s, e)
    ensures Shape(t) && |t.threads| == |s.threads|
  {
    match e
    case Call(i, op) =>
      Read(if op == Dec then s.(held := s.held[i := s.held[i] - 1]) else s, i, op)
    case Swap(i, spurious) =>
      var op, expected := s.threads[i].op, s.threads[i].expected;
      if s.count == expected && !spurious then
        if op == Inc then Finish(s, i, op, expected + 1, Returned(false))
        else if expected == 0 then Finish(s, i, op, 0, Aborted)
        else Finish(s, i, op, expected - 1, Returned(expected - 1 == 0))
      else Read(s, i, op)
    case Hand(i, j) => s.(held := s.held[i := s.held[i] - 1][j := s.held[j] + 1])
  }

  ghost predicate Runs(s: System, events: seq<Event>)
    requires Shape(s)
    decreases |events|
  {
    events == [] || (Allowed(s, events[0]) && Runs(Step(s, events[0]), events[1..]))
  }

  function Run(s: System, events: seq<Event>): (t: System)
    requires Shape(s) && Runs(s, events)
    ensures Shape(t)
    decreases |events|
  {
    if events == [] then s else Run(Step(s, events[0]), events[1..])
  }

  // ----- Refinement -------------------------------------------------------------------------

  /** A thread only ever tries to change values that its operation changes. */
  predicate Sane(s: System) {
    && s.count <= MAX
    && forall i :: 0 <= i < |s.threads| && s.threads[i].Trying? ==>
         s.threads[i].expected < MAX && (s.threads[i].op == Dec ==> s.threads[i].expected > 0)
  }

  predicate Refines(first: nat, s: System) {
    Sane(s) && s.count == Replay(first, s.log) && Agrees(first, s.log)
  }

  lemma LogOne(first: nat, log: seq<Entry>, e: Entry)
    requires Agrees(first, log) && e.outcome == LockedOutcome(Replay(first, log), e.op)
    ensures Agrees(first, log + [e])
    ensures Replay(first, log + [e]) == LockedCount(Replay(first, log), e.op)
  {
    var more := log + [e];
    assert more[..|log|] == log;
    forall k | 0 <= k < |more|
      ensures more[k].outcome == LockedOutcome(Replay(first, more[..k]), more[k].op)
    {
      if k < |log| {
        assert more[..k] == log[..k];
      }
    }
  }

  lemma FinishRefines(first: nat, s: System, i: nat, op: Op, count: nat, outcome: Outcome)
    requires Shape(s) && Refines(first, s) && i < |s.threads|
    requires count == LockedCount(s.count, op) && outcome == LockedOutcome(s.count, op)
    ensures Refines(first, Finish(s, i, op, count, outcome))
  {
    hide Agrees, Replay;
    LogOne(first, s.log, Entry(i, op, outcome));
  }

  lemma ReadRefines(first: nat, s: System, i: nat, op: Op)
    requires Shape(s) && Refines(first, s) && i < |s.threads|
    ensures Refines(first, Read(s, i, op))
  {
    hide Agrees, Replay, Finish;
    if s.count == MAX || (op == Dec && s.count == 0) {
      FinishRefines(first, s, i, op, s.count, LockedOutcome(s.count, op));
    }
  }

  lemma StepRefines(first: nat, s: System, e: Event)
    requires Shape(s) && Allowed(s, e) && Refines(first, s)
    ensures Refines(first, Step(s, e))
  {
    hide Agrees, Replay, Finish, Read;
    match e
    case Call(i, op) =>
      ReadRefines(first, if op == Dec then s.(held := s.held[i := s.held[i] - 1]) else s, i, op);
    case Swap(i, spurious) =>
      var op, expected := s.threads[i].op, s.threads[i].expected;
      if s.count == expected && !spurious {
        FinishRefines(first, s, i, op, LockedCount(expected, op), LockedOutcome(expected, op));
      } else {
        ReadRefines(first, s, i, op);
      }
    case Hand(i, j) =>
  }

  /** Every interleaving of the loops, with any spurious failures, is a run of the locked version:
      same outcomes, same count. */
  lemma {:induction false} Refinement(first: nat, s: System, events: seq<Event>)
    requires Shape(s) && Refines(first, s) && Runs(s, events)
    ensures Refines(first, Run(s, events))
    decreases |events|
  {
    hide Refines, Step, Allowed;
    if events != [] {
      StepRefines(first, s, events[0]);
      Refinement(first, Step(s, events[0]), events[1..]);
    }
  }

  // ----- References --------------------------------------------------------------------------

  function Sum(held: seq<nat>): nat {
    if held == [] then 0 else held[0] + Sum(held[1..])
  }

  function Releasing(threads: seq<Thread>): nat {
    if threads == [] then 0
    else (if threads[0].Trying? && threads[0].op == Dec then 1 else 0) + Releasing(threads[1..])
  }

  /** References that exist: those held, and those that a decrement has not given up yet. */
  function Outstanding(s: System): nat {
    Sum(s.held) + Releasing(s.threads)
  }

  /** The count is the number of references until it saturates; an increment in progress holds one. */
  predicate Counts(s: System)
    ensures Counts(s) ==> Shape(s)
  {
    && Shape(s) && Sane(s) && !s.crashed
    && (s.count < MAX ==> s.count == Outstanding(s))
    && forall i :: 0 <= i < |s.threads| && s.threads[i].Trying? && s.threads[i].op == Inc ==> s.held[i] > 0
  }

  lemma {:induction false} SumUpdate(held: seq<nat>, i: nat, n: nat)
    requires i < |held|
    ensures Sum(held[i := n]) == Sum(held) - held[i] + n
    ensures held[i] <= Sum(held)
    decreases i
  {
    if i == 0 {
      assert held[0 := n][1..] == held[1..];
    } else {
      assert held[i := n][1..] == held[1..][i - 1 := n];
      SumUpdate(held[1..], i - 1, n);
    }
  }

  lemma {:induction false} ReleasingUpdate(threads: seq<Thread>, i: nat, t: Thread)
    requires i < |threads|
    ensures Releasing(threads[i := t]) == Releasing(threads)
      - (if threads[i].Trying? && threads[i].op == Dec then 1 else 0) + (if t.Trying? && t.op == Dec then 1 else 0)
    ensures threads[i].Trying? && threads[i].op == Dec ==> Releasing(threads) > 0
    decreases i
  {
    if i == 0 {
      assert threads[0 := t][1..] == threads[1..];
    } else {
      assert threads[i := t][1..] == threads[1..][i - 1 := t];
      ReleasingUpdate(threads[1..], i - 1, t);
    }
  }

  lemma FinishCounts(s: System, i: nat, op: Op)
    requires Counts(s) && i < |s.threads| && s.threads[i].Trying? && s.threads[i].op == op
    ensures s.count > 0
    ensures Counts(Finish(s, i, op, LockedCount(s.count, op), LockedOutcome(s.count, op)))
  {
    hide Sum, Releasing;
    SumUpdate(s.held, i, s.held[i] + 1);
    ReleasingUpdate(s.threads, i, Idle);
  }

  lemma ReadCounts(s: System, i: nat, op: Op)
    requires Counts(s) && i < |s.threads| && s.threads[i].Trying? && s.threads[i].op == op
    ensures Counts(Read(s, i, op))
    ensures s.count == MAX ==> Read(s, i, op).count == MAX
  {
    hide Sum, Releasing;
    FinishCounts(s, i, op);
    ReleasingUpdate(s.threads, i, Trying(op, s.count));
  }

  /** A call counts as begun before its first load. */
  lemma CallCounts(s: System, i: nat, op: Op)
    requires Counts(s) && Allowed(s, Call(i, op))
    ensures var held := if op == Dec then s.held[i := s.held[i] - 1] else s.held;
      Counts(s.(held := held, threads := s.threads[i := Trying(op, 1)]))
  {
    hide Sum, Releasing;
    SumUpdate(s.held, i, s.held[i] - 1);
    ReleasingUpdate(s.threads, i, Trying(op, 1));
  }

  lemma HandCounts(s: System, i: nat, j: nat)
    requires Counts(s) && Allowed(s, Hand(i, j))
    ensures Counts(Step(s, Hand(i, j)))
  {
    hide Sum, Releasing;
    SumUpdate(s.held, i, s.held[i] - 1);
    SumUpdate(s.held[i := s.held[i] - 1], j, s.held[j] + 1);
  }

  lemma StepCounts(s: System, e: Event)
    requires Counts(s) && Allowed(s, e)
    ensures Counts(Step(s, e))
    ensures s.count == MAX ==> Step(s, e).count == MAX
  {
    match e
    case Call(i, op) =>
      CallStep(s, i, op);
    case Swap(i, spurious) => SwapCounts(s, i, spurious);
    case Hand(i, j) => HandCounts(s, i, j);
  }

  lemma CallStep(s: System, i: nat, op: Op)
    requires Counts(s) && Allowed(s, Call(i, op))
    ensures Counts(Step(s, Call(i, op)))
    ensures s.count == MAX ==> Step(s, Call(i, op)).count == MAX
  {
    hide Counts, Outstanding;
    CallCounts(s, i, op);
    var held := if op == Dec then s.held[i := s.held[i] - 1] else s.held;
    var begun := s.(held := held, threads := s.threads[i := Trying(op, 1)]);
    ReadCounts(begun, i, op);
    assert begun.threads[i := Trying(op, s.count)] == s.threads[i := Trying(op, s.count)];
    assert begun.threads[i := Idle] == s.threads[i := Idle];
    assert Read(begun, i, op) == Read(s.(held := held), i, op);
  }

  lemma SwapCounts(s: System, i: nat, spurious: bool)
    requires Counts(s) && Allowed(s, Swap(i, spurious))
    ensures Counts(Step(s, Swap(i, spurious)))
    ensures s.count == MAX ==> Step(s, Swap(i, spurious)).count == MAX
  {
    hide Outstanding, Finish, Read;
    var op := s.threads[i].op;
    FinishCounts(s, i, op);
    ReadCounts(s, i, op);
  }

  /** Callers that own what they use never crash; the count equals the references until it
      saturates, and then it stays. */
  lemma {:induction false} CountIsReferences(s: System, events: seq<Event>)
    requires Counts(s) && Runs(s, events)
    ensures Counts(Run(s, events))
    ensures s.count == MAX ==> Run(s, events).count == MAX
    decreases |events|
  {
    hide Counts, Step;
    if events != [] {
      StepCounts(s, events[0]);
      CountIsReferences(Step(s, events[0]), events[1..]);
    }
  }

  /** No thread holds a reference or is in the middle of an operation. */
  predicate Quiet(s: System)
    requires Shape(s)
  {
    forall i :: 0 <= i < |s.threads| ==> s.threads[i].Idle? && s.held[i] == 0
  }

  /** A decrement reported zero exactly if the count is zero; it was the last thing to happen. */
  predicate ZeroIsLast(s: System)
    requires Shape(s)
  {
    && (forall k :: 0 <= k < |s.log| ==> (s.log[k].outcome == Returned(true) <==> k == |s.log| - 1 && s.count == 0))
    && (s.count == 0 ==> s.log != [] && Quiet(s))
  }

  lemma {:induction false} SumZero(held: seq<nat>)
    requires Sum(held) == 0
    ensures forall i :: 0 <= i < |held| ==> held[i] == 0
  {
    if held != [] {
      SumZero(held[1..]);
    }
  }

  lemma {:induction false} ReleasingZero(threads: seq<Thread>)
    requires Releasing(threads) == 0
    ensures forall i :: 0 <= i < |threads| ==> !(threads[i].Trying? && threads[i].op == Dec)
  {
    if threads != [] {
      ReleasingZero(threads[1..]);
    }
  }

  lemma ZeroIsQuiet(s: System)
    requires Counts(s) && s.count == 0
    ensures Quiet(s)
  {
    hide Sum, Releasing;
    SumZero(s.held);
    ReleasingZero(s.threads);
  }

  lemma StepZero(s: System, e: Event)
    requires Counts(s) && Allowed(s, e) && ZeroIsLast(s)
    ensures ZeroIsLast(Step(s, e))
  {
    hide Outstanding;
    assert s.count > 0;
    StepCounts(s, e);
    var t := Step(s, e);
    if t.count == 0 {
      ZeroIsQuiet(t);
    }
  }

  /** At most one decrement reports zero, namely the one that gives up the last reference, and
      nothing can follow it. */
  lemma {:induction false} OneZero(s: System, events: seq<Event>)
    requires Counts(s) && ZeroIsLast(s) && Runs(s, events)
    ensures ZeroIsLast(Run(s, events))
    ensures Run(s, events).count == 0 ==> forall e :: !Allowed(Run(s, events), e)
    decreases |events|
  {
    hide Counts, Step;
    if events != [] {
      StepCounts(s, events[0]);
      StepZero(s, events[0]);
      OneZero(Step(s, events[0]), events[1..]);
    }
  }

  // ----- The loops themselves ------------------------------------------------------------------

  /** What other threads do to the count between two atomic operations of this one. */
  datatype Disturbance = Disturbance(others: seq<Op>, spurious: bool)

  /** An atomic 32-bit counter. `log` remembers how every change and every reading operation took
      effect; the disturbances that are still to come are finitely many. */
  class AtomicCount {
    var count: nat
    var disturbances: seq<Disturbance>
    ghost const first: nat
    ghost var log: seq<Entry>

    ghost predicate Valid()
      reads this
    {
      count <= MAX && count == Replay(first, log) && Agrees(first, log)
    }

    constructor (count: nat, disturbances: seq<Disturbance>)
      requires count <= MAX
      ensures Valid() && this.count == count && log == []
    {
      this.count, this.disturbances, first, log := count, disturbances, count, [];
    }

    /** An operation of another thread takes effect. */
    method Other(op: Op)
      requires Valid()
      modifies this`count, this`log
      ensures Valid() && OthersOnly(old(log), log)
    {
      var e := Entry(0, op, LockedOutcome(count, op));
      LogOne(first, log, e);
      log := log + [e];
      count := LockedCount(count, op);
    }

    /** Whatever happens before the next atomic operation; only others are at work. */
    method Disturb() returns (spurious: bool)
      requires Valid()
      modifies this
      ensures Valid() && OthersOnly(old(log), log)
      ensures |disturbances| == if |old(disturbances)| > 0 then |old(disturbances)| - 1 else 0
      ensures old(disturbances) == [] ==> !spurious && log == old(log) && count == old(count)
    {
      spurious := false;
      if disturbances == [] {
        return;
      }
      var d := disturbances[0];
      disturbances := disturbances[1..];
      spurious := d.spurious;
      var i := 0;
      while i < |d.others|
        invariant i <= |d.others| && Valid() && disturbances == old(disturbances)[1..]
        invariant OthersOnly(old(log), log)
      {
        Other(d.others[i]);
        i := i + 1;
      }
    }

    /** `atomic_load`. */
    method Load() returns (value: nat)
      requires Valid()
      modifies this
      ensures Valid() && value == count && OthersOnly(old(log), log)
    {
      var spurious := Disturb();
      value := count;
    }

    /** `atomic_compare_exchange_weak`, as an attempt to do `op`; when it fails, it gives the value
        that it found. */
    method CompareExchangeWeak(expected: nat, desired: nat, ghost op: Op) returns (ok: bool, seen: nat)
      requires Valid() && expected == count < MAX && (op == Dec ==> 0 < expected)
      requires desired == LockedCount(expected, op)
      modifies this
      ensures Valid()
      ensures !ok ==> seen == count && |disturbances| < |old(disturbances)| && OthersOnly(old(log), log)
      ensures ok ==> Effect(old(log), log, Entry(1, op, LockedOutcome(expected, op)))
    {
      var spurious := Disturb();
      if count == expected && !spurious {
        Own(op);
        count := desired;
        return true, expected;
      }
      return false, count;
    }

    /** This thread's operation takes effect on the present count. */
    ghost method Own(op: Op)
      requires Valid()
      modifies this`log
      ensures log == old(log) + [Entry(1, op, LockedOutcome(count, op))]
      ensures Agrees(first, log) && Replay(first, log) == LockedCount(count, op)
    {
      LogOne(first, log, Entry(1, op, LockedOutcome(count, op)));
      log := log + [Entry(1, op, LockedOutcome(count, op))];
    }

    /** `CRYPTO_refcount_inc`. */
    method Increment()
      requires Valid()
      modifies this
      ensures Valid() && Effect(old(log), log, Entry(1, Inc, Returned(false)))
    {
      hide Agrees, Replay;
      var expected := Load();
      while expected != MAX
        invariant Valid() && expected == count && OthersOnly(old(log), log)
        decreases |disturbances|
      {
        var newValue := expected + 1;
        ghost var before := log;
        var ok;
        ok, expected := CompareExchangeWeak(expected, newValue, Inc);
        if ok {
          return;
        }
      }
      Own(Inc);
    }

    /** `CRYPTO_refcount_dec_and_test_zero`; at zero the process aborts. */
    method DecrementAndTestZero() returns (outcome: Outcome)
      requires Valid()
      modifies this
      ensures Valid() && Effect(old(log), log, Entry(1, Dec, outcome))
    {
      hide Agrees, Replay;
      var expected := Load();
      while true
        invariant Valid() && expected == count && OthersOnly(old(log), log)
        decreases |disturbances|
      {
        if expected == 0 {
          Own(Dec);
          return Aborted;
        } else if expected == MAX {
          Own(Dec);
          return Returned(false);
        } else {
          var newValue := expected - 1;
          var ok;
          ok, expected := CompareExchangeWeak(expected, newValue, Dec);
          if ok {
            return Returned(newValue == 0);
          }
        }
      }
    }
  }

  ghost predicate OthersOnly(before: seq<Entry>, after: seq<Entry>) {
    before <= after && forall k :: |before| <= k < |after| ==> after[k].thread == 0
  }

  /** Only others were at work, except for one operation of this thread at the end. */
  ghost predicate Effect(before: seq<Entry>, after: seq<Entry>, own: Entry) {
    after != [] && OthersOnly(before, after[..|after| - 1]) && after[|after| - 1] == own
  }

  /** The version behind a lock. */
  class LockedCounter {
    var count: nat

    constructor (count: nat)
      ensures this.count == count
    {
      this.count := count;
    }

    method Increment()
      modifies this
      ensures count == LockedCount(old(count), Inc)
    {
      if count < MAX {
        count := count + 1;
      }
    }

    method DecrementAndTestZero() returns (outcome: Outcome)
      modifies this
      ensures count == LockedCount(old(count), Dec) && outcome == LockedOutcome(old(count), Dec)
    {
      if count == 0 {
        return Aborted;
      }
      if count < MAX {
        count := count - 1;
      }
      outcome := Returned(count == 0);
    }
  }
}
