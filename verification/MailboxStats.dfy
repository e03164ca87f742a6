/**
 Mailbox usage statistics (tfm_ns_mailbox_test.c): each transmission samples the empty
 slots under the lock, counts them outside it, and adds the number of used slots under the
 lock again.  Many transmissions may be between their two locked sections at once.
 */
module MailboxStats {
  import opened Common

  // ----- One update -----

  /** Number of the first `n` slots whose bit is set. */
  function EmptySlots(status: seq<bool>, n: nat): (r: nat)
    requires n <= |status|
    ensures r <= n
  {
    if n == 0 then 0 else EmptySlots(status, n - 1) + if status[n - 1] then 1 else 0
  }

  /** The slots among the first `n` that are empty. */
  ghost function EmptySet(status: seq<bool>, n: nat): set<nat> {
    set i: nat | i < n && i < |status| && status[i]
  }

  lemma EmptySetStep(status: seq<bool>, n: nat)
    requires n < |status|
    ensures |EmptySet(status, n + 1)| == |EmptySet(status, n)| + if status[n] then 1 else 0
  {
    assert EmptySet(status, n + 1) == EmptySet(status, n) + if status[n] then {n} else {};
  }

  /** The count is that of the slots whose bit is set. */
  lemma {:induction false} EmptySlotsMeaning(status: seq<bool>, n: nat)
    requires n <= |status|
    ensures EmptySlots(status, n) == |EmptySet(status, n)|
  {
    if n > 0 {
      EmptySlotsMeaning(status, n - 1);
      EmptySetStep(status, n - 1);
    }
  }

  /** All slots are counted iff all bits are set, none iff none is. */
  lemma {:induction false} EmptySlotsExtremes(status: seq<bool>, n: nat)
    requires n <= |status|
    ensures (forall i :: 0 <= i < n ==> status[i]) <==> EmptySlots(status, n) == n
    ensures (forall i :: 0 <= i < n ==> !status[i]) <==> EmptySlots(status, n) == 0
  {
    if n > 0 {
      EmptySlotsExtremes(status, n - 1);
    }
  }

  /** The counting loop between the two locked sections; bits beyond the slots do not count. */
  method CountEmpty(status: seq<bool>, slots: nat) returns (nrEmpty: nat)
    requires slots <= |status|
    ensures nrEmpty == EmptySlots(status, slots) == |EmptySet(status, slots)|
  {
    EmptySlotsMeaning(status, slots);
    nrEmpty := 0;
    for idx := 0 to slots
      invariant nrEmpty == EmptySlots(status, idx)
    {
      if status[idx] {
        nrEmpty := nrEmpty + 1;
      }
    }
  }

  // ----- Interleavings -----

  /** The shared counters, the samples taken and not yet added, and the samples added since the last reinit. */
  datatype State = State(nrTx: UInt32, nrUsed: UInt32, pending: map<nat, nat>, committed: seq<nat>)

  /** The atomic steps: a locked sample, a locked addition, a reinitialisation. */
  datatype Step = Sample(thread: nat, status: seq<bool>) | Commit(thread: nat) | Reinit

  predicate Enabled(s: State, step: Step, slots: nat) {
    match step
    case Sample(thread, status) => thread !in s.pending && slots <= |status|
    case Commit(thread) => thread in s.pending
    case Reinit => true
  }

  function Do(s: State, step: Step, slots: nat): State
    requires Enabled(s, step, slots)
  {
    match step
    case Sample(thread, status) => s.(pending := s.pending[thread := slots - EmptySlots(status, slots)])
    case Commit(thread) =>
      var used := s.pending[thread];
      State((s.nrTx + 1) % 0x1_0000_0000, (s.nrUsed + used) % 0x1_0000_0000,
            s.pending - {thread}, s.committed + [used])
    case Reinit => s.(nrTx := 0, nrUsed := 0, committed := [])
  }

  // ----- The queue -----

  datatype Status = MailboxSuccess | MailboxInvalParams

  /** The part of the mailbox queue the statistics use; `emptySlots` are the bits of its status word. */
  class Queue {
    const slots: nat
    var emptySlots: seq<bool>
    var nrTx: UInt32
    var nrUsed: UInt32

    constructor (status: seq<bool>, slots: nat)
      ensures emptySlots == status && this.slots == slots
    {
      this.slots := slots;
      emptySlots, nrTx, nrUsed := status, 0, 0;
    }

    /** The counters are those of `s`. */
    ghost predicate Shows(s: State)
      reads this
    {
      nrTx == s.nrTx && nrUsed == s.nrUsed
    }

    /** The second locked section, for a thread that counted `nrEmpty` in its sample. */
    method AddUsed(nrEmpty: nat, ghost thread: nat, ghost s: State)
      requires Shows(s) && Enabled(s, Commit(thread), slots)
      requires nrEmpty <= slots && s.pending[thread] == slots - nrEmpty
      modifies this`nrTx, this`nrUsed
      ensures Shows(Do(s, Commit(thread), slots))
    {
      nrUsed := (nrUsed + (slots - nrEmpty)) % 0x1_0000_0000;
      nrTx := (nrTx + 1) % 0x1_0000_0000;
    }
  }

  /** The module's pointer to the queue, null until initialised. */
  class Stats {
    var queue: Queue?

    constructor ()
      ensures queue == null
    {
      queue := null;
    }

    method Init(q: Queue?)
      modifies this, q
      ensures queue == if q == null then old(queue) else q
      ensures q != null ==> q.nrTx == q.nrUsed == 0 && q.emptySlots == old(q.emptySlots)
    {
      if q == null {
        return;
      }
      q.nrTx, q.nrUsed := 0, 0;
      queue := q;
    }

    method Reinit(ghost s: State) returns (rc: Status)
      requires queue != null ==> queue.Shows(s)
      modifies queue
      ensures rc == (if queue == null then MailboxInvalParams else MailboxSuccess)
      ensures queue != null ==>
                queue.Shows(Do(s, Step.Reinit, queue.slots)) && queue.emptySlots == old(queue.emptySlots)
    {
      if queue == null {
        return MailboxInvalParams;
      }
      queue.nrTx, queue.nrUsed := 0, 0;
      return MailboxSuccess;
    }

    /** An update that no other thread interrupts is its sample followed by its addition. */
    method Update(ghost thread: nat, ghost s: State)
      requires queue != null ==> queue.Shows(s) && Enabled(s, Sample(thread, queue.emptySlots), queue.slots)
      modifies queue
      ensures queue != null ==>
                && queue.emptySlots == old(queue.emptySlots)
                && var s' := Do(s, Sample(thread, queue.emptySlots), queue.slots);
                   queue.Shows(Do(s', Commit(thread), queue.slots))
      ensures queue != null ==>
                && queue.nrTx == (old(queue.nrTx) + 1) % 0x1_0000_0000
                && queue.nrUsed ==
                   (old(queue.nrUsed) + queue.slots - |EmptySet(queue.emptySlots, queue.slots)|) % 0x1_0000_0000
    {
      if queue == null {
        return;
      }
      var status := queue.emptySlots;
      ghost var sampled := Do(s, Sample(thread, status), queue.slots);
      var nrEmpty := CountEmpty(status, queue.slots);
      queue.AddUsed(nrEmpty, thread, sampled);
    }

    /** The average cut to tenths, unless the product wraps; without a queue or a place for it, nothing. */
    method AverageSlot(res: Result?)
      requires queue != null && res != null ==> queue.nrTx > 0
      modifies res
      ensures res != null && queue == null ==> res.average == old(res.average)
      ensures res != null && queue != null ==>
                && res.average == AverageSlots(queue.nrUsed, queue.nrTx)
                && (queue.nrUsed % queue.nrTx * 10 < 0x1_0000_0000 ==>
                      10 * res.average.whole + res.average.tenths == 10 * queue.nrUsed / queue.nrTx
                      && res.average.tenths < 10)
    {
      if queue == null || res == null {
        return;
      }
      var used: UInt32, tx: UInt32 := queue.nrUsed, queue.nrTx;
      AverageExact(used, tx);
      Division(used, tx);
      var whole := used / tx;
      used := used % tx;
      var tenfold: UInt32 := used * 10 % 0x1_0000_0000;
      Division(tenfold, tx);
      res.average := Average(whole, tenfold / tx);
    }
  }

  /** Where a caller wants the average. */
  class Result {
    var average: Average

    constructor (average: Average)
      ensures this.average == average
    {
      this.average := average;
    }
  }

  // ----- Every run -----

  predicate Runs(s: State, steps: seq<Step>, slots: nat)
    decreases |steps|
  {
    steps == [] || (Enabled(s, steps[0], slots) && Runs(Do(s, steps[0], slots), steps[1..], slots))
  }

  function RunSteps(s: State, steps: seq<Step>, slots: nat): State
    requires Runs(s, steps, slots)
    decreases |steps|
  {
    if steps == [] then s else RunSteps(Do(s, steps[0], slots), steps[1..], slots)
  }

  function Sum(xs: seq<nat>): nat {
    if xs == [] then 0 else Sum(xs[..|xs| - 1]) + xs[|xs| - 1]
  }

  /** The counters are the number and the sum of the committed samples, modulo 2^32. */
  ghost predicate Inv(s: State, slots: nat) {
    && s.nrTx == |s.committed| % 0x1_0000_0000
    && s.nrUsed == Sum(s.committed) % 0x1_0000_0000
    && (forall t :: t in s.pending ==> s.pending[t] <= slots)
    && (forall i :: 0 <= i < |s.committed| ==> s.committed[i] <= slots)
  }

  lemma WrapAdd(a: nat, b: nat)
    ensures (a % 0x1_0000_0000 + b) % 0x1_0000_0000 == (a + b) % 0x1_0000_0000
  {
  }

  lemma StepKeeps(s: State, step: Step, slots: nat)
    requires Inv(s, slots) && Enabled(s, step, slots)
    ensures Inv(Do(s, step, slots), slots)
  {
    if step.Commit? {
      var used := s.pending[step.thread];
      assert (s.committed + [used])[..|s.committed|] == s.committed;
      WrapAdd(|s.committed|, 1);
      WrapAdd(Sum(s.committed), used);
    }
  }

  lemma {:induction false} RunKeeps(s: State, steps: seq<Step>, slots: nat)
    requires Inv(s, slots) && Runs(s, steps, slots)
    ensures Inv(RunSteps(s, steps, slots), slots)
    decreases |steps|
  {
    if steps != [] {
      StepKeeps(s, steps[0], slots);
      RunKeeps(Do(s, steps[0], slots), steps[1..], slots);
    }
  }

  lemma {:induction false} SumBound(xs: seq<nat>, slots: nat)
    requires forall i :: 0 <= i < |xs| ==> xs[i] <= slots
    ensures Sum(xs) <= slots * |xs|
  {
    if xs != [] {
      var n := |xs| - 1;
      SumBound(xs[..n], slots);
      assert slots * |xs| == slots * n + slots;
    }
  }

  /** After every interleaving from a reset, short of 32-bit wrap: sum and count of samples, and the bound. */
  lemma CountersMeanSamples(pending: map<nat, nat>, steps: seq<Step>, slots: nat)
    requires forall t :: t in pending ==> pending[t] <= slots
    requires Runs(State(0, 0, pending, []), steps, slots)
    ensures var s := RunSteps(State(0, 0, pending, []), steps, slots);
            slots * |s.committed| < 0x1_0000_0000 && |s.committed| < 0x1_0000_0000 ==>
              s.nrTx == |s.committed| && s.nrUsed == Sum(s.committed) <= slots * s.nrTx
  {
    var s := RunSteps(State(0, 0, pending, []), steps, slots);
    RunKeeps(State(0, 0, pending, []), steps, slots);
    SumBound(s.committed, slots);
  }

  /** The used slots of each sample that was committed since the last reinitialisation, found in the history. */
  function Committed(s: State, steps: seq<Step>, slots: nat): seq<nat>
    requires Runs(s, steps, slots)
    decreases |steps|
  {
    if steps == [] then []
    else
      var rest := Committed(Do(s, steps[0], slots), steps[1..], slots);
      if steps[0].Commit? && NoReinit(steps[1..]) then [s.pending[steps[0].thread]] + rest else rest
  }

  predicate NoReinit(steps: seq<Step>) {
    forall i :: 0 <= i < |steps| ==> !steps[i].Reinit?
  }

  /** What a thread commits is the number of slots that were not empty when it last looked. */
  lemma SampleMeaning(s: State, thread: nat, status: seq<bool>, slots: nat)
    requires Enabled(s, Sample(thread, status), slots)
    ensures var s' := Do(s, Sample(thread, status), slots);
            && s'.pending[thread] == slots - |EmptySet(status, slots)|
            && s' == s.(pending := s.pending[thread := s'.pending[thread]])
  {
    EmptySlotsMeaning(status, slots);
  }

  /** Between its sample and its commit a thread's count is not touched by the others. */
  lemma {:induction false} SampleKept(s: State, steps: seq<Step>, slots: nat, thread: nat)
    requires Runs(s, steps, slots) && thread in s.pending
    requires forall i :: 0 <= i < |steps| ==> steps[i] != Commit(thread)
    ensures thread in RunSteps(s, steps, slots).pending
    ensures RunSteps(s, steps, slots).pending[thread] == s.pending[thread]
    decreases |steps|
  {
    if steps != [] {
      SampleKept(Do(s, steps[0], slots), steps[1..], slots, thread);
    }
  }

  /** The samples that count are those committed since the last reinitialisation, in order. */
  lemma {:induction false} CommittedMeaning(s: State, steps: seq<Step>, slots: nat)
    requires Runs(s, steps, slots)
    ensures RunSteps(s, steps, slots).committed ==
            (if NoReinit(steps) then s.committed else []) + Committed(s, steps, slots)
    decreases |steps|
  {
    if steps == [] {
      assert s.committed + [] == s.committed;
    } else {
      var s', rest := Do(s, steps[0], slots), steps[1..];
      CommittedMeaning(s', rest, slots);
      NoReinitFirst(steps);
      if steps[0].Commit? && NoReinit(rest) {
        var used := s.pending[steps[0].thread];
        assert s.committed + [used] + Committed(s', rest, slots) == s.committed + ([used] + Committed(s', rest, slots));
      }
    }
  }

  lemma NoReinitFirst(steps: seq<Step>)
    requires steps != []
    ensures NoReinit(steps) <==> !steps[0].Reinit? && NoReinit(steps[1..])
  {
    assert forall i :: 0 < i < |steps| ==> steps[i] == steps[1..][i - 1];
    assert forall i :: 0 <= i < |steps[1..]| ==> steps[1..][i] == steps[i + 1];
  }

  // ----- The average -----

  datatype Average = Average(whole: UInt32, tenths: UInt32)

  /** tfm_ns_mailbox_stats_avg_slot, in 32-bit arithmetic; the source divides by the count unchecked. */
  function AverageSlots(nrUsed: UInt32, nrTx: UInt32): Average
    requires nrTx > 0
  {
    var tenfold: UInt32 := nrUsed % nrTx * 10 % 0x1_0000_0000;
    Division(nrUsed, nrTx);
    Division(tenfold, nrTx);
    Average(nrUsed / nrTx, tenfold / nrTx)
  }

  /** The result is the average cut to tenths iff ten times the remainder does not wrap. */
  lemma AverageExact(nrUsed: UInt32, nrTx: UInt32)
    requires nrTx > 0
    ensures var a := AverageSlots(nrUsed, nrTx);
            10 * a.whole + a.tenths == 10 * nrUsed / nrTx <==> nrUsed % nrTx * 10 < 0x1_0000_0000
    ensures nrUsed % nrTx * 10 < 0x1_0000_0000 ==> AverageSlots(nrUsed, nrTx).tenths < 10
  {
    Division(nrUsed, nrTx);
    var q, r := nrUsed / nrTx, nrUsed % nrTx;
    TenfoldQuotient(nrUsed, nrTx, q, r);
    WrappedTenths(r, nrTx);
  }

  /** With a wrapped product the tenths come out too small, otherwise they are right and below ten. */
  lemma WrappedTenths(r: nat, d: nat)
    requires r < d < 0x1_0000_0000
    ensures r * 10 % 0x1_0000_0000 / d == r * 10 / d <==> r * 10 < 0x1_0000_0000
    ensures r * 10 / d < 10
  {
    var w, x := r * 10 % 0x1_0000_0000, r * 10;
    Division(w, d);
    Division(x, d);
    var a, b := w / d, x / d;
    InOrder(b, 10, d);
    InOrder(10, b, d);
    if x >= 0x1_0000_0000 {
      assert w + d <= x;
      InOrder(b, a, d);
    }
  }

  lemma TenfoldQuotient(n: nat, d: nat, q: nat, r: nat)
    requires d > 0 && n == q * d + r && r < d
    ensures 10 * n / d == 10 * q + r * 10 / d
  {
    Division(r * 10, d);
    var t, u := r * 10 / d, r * 10 % d;
    Distribute(q, t, d);
    Quotient(10 * n, d, 10 * q + t, u);
  }

  // Division, told by multiplication

  lemma Distribute(q: nat, t: nat, d: nat)
    ensures (10 * q + t) * d == 10 * (q * d) + t * d
  {
  }

  lemma Division(n: nat, d: nat)
    requires d > 0
    ensures n == n / d * d + n % d && 0 <= n % d < d && 0 <= n / d <= n
  {
    InOrder(n, n / d, d);
  }

  /** Multiples of `d` are in the order of their factors and at least `d` apart. */
  lemma {:induction false} InOrder(a: nat, b: nat, d: nat)
    ensures a >= b || a * d + d <= b * d
    ensures d > 0 ==> a * d >= a
    decreases b, a
  {
    if b > a {
      InOrder(a, b - 1, d);
      assert b * d == (b - 1) * d + d;
    } else if a > 0 {
      InOrder(a - 1, 0, d);
      assert a * d == (a - 1) * d + d;
    }
  }

  lemma Quotient(n: nat, d: nat, q: nat, r: nat)
    requires d > 0 && n == q * d + r && r < d
    ensures n / d == q
  {
    Division(n, d);
    InOrder(n / d, q, d);
    InOrder(q, n / d, d);
  }
}
