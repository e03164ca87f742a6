/**
 The per-thread C library space of RTX (rtx_lib.c): a slot for each thread that asks,
 found by probing a table of thread ids, and one more slot used before the kernel runs.
 */
module Libspace {

  const NULL_ID: nat := 0

  /** First slot that is free or belongs to `id`, or the number of slots. */
  function Probe(t: seq<nat>, id: nat): (n: nat)
    ensures n <= |t|
  {
    if t == [] || t[0] == NULL_ID || t[0] == id then 0 else 1 + Probe(t[1..], id)
  }

  function Place(t: seq<nat>, id: nat): (t': seq<nat>)
    ensures |t'| == |t|
  {
    var n := Probe(t, id);
    if n < |t| then t[n := id] else t
  }

  class Space {
    const ids: array<nat>
    var active: bool

    constructor (slots: nat)
      ensures fresh(ids) && ids[..] == seq(slots, _ => NULL_ID) && !active
    {
      ids := new nat[slots](_ => NULL_ID);
      active := false;
    }

    /** os_kernel_is_active: once seen running, always running */
    method KernelIsActive(running: bool) returns (r: bool)
      modifies this`active
      ensures active == (old(active) || running) && r == active
    {
      if !active {
        if running {
          active := true;
        }
      }
      r := active;
    }

    /** __user_perthread_libspace for the thread `id`; `notified` is the error callback. */
    method PerThread(running: bool, id: nat) returns (slot: nat, notified: bool)
      modifies this`active, ids
      ensures active == (old(active) || running)
      ensures active ==> && slot == Probe(old(ids[..]), id) && ids[..] == Place(old(ids[..]), id)
                         && notified == (slot == ids.Length)
      ensures !active ==> slot == ids.Length && ids[..] == old(ids[..]) && !notified
    {
      notified := false;
      var on := KernelIsActive(running);
      if on {
        slot := 0;
        ghost var t := ids[..];
        assert t[0..] == t;
        while slot < ids.Length
          invariant slot <= ids.Length && ids[..] == t && active
          invariant Probe(t, id) == slot + Probe(t[slot..], id)
        {
          assert t[slot..][0] == ids[slot] && t[slot..][1..] == t[slot + 1..];
          if ids[slot] == NULL_ID {
            ids[slot] := id;
          }
          if ids[slot] == id {
            assert ids[..] == t[slot := id];
            break;
          }
          slot := slot + 1;
        }
        if slot == ids.Length {
          notified := true;
        }
      } else {
        slot := ids.Length;
      }
    }
  }

  // ----- Every sequence of calls -----

  datatype Call = Call(running: bool, id: nat)

  datatype State = State(table: seq<nat>, active: bool)

  function Step(s: State, c: Call): State {
    var active := s.active || c.running;
    State(if active then Place(s.table, c.id) else s.table, active)
  }

  /** The slot a call returns. */
  function SlotOf(s: State, c: Call): nat {
    if s.active || c.running then Probe(s.table, c.id) else |s.table|
  }

  function RunCalls(s: State, cs: seq<Call>): State
    decreases |cs|
  {
    if cs == [] then s else RunCalls(Step(s, cs[0]), cs[1..])
  }

  /** Occupied slots come first and belong to different threads. */
  ghost predicate Packed(t: seq<nat>) {
    && (forall i, j :: 0 <= i < j < |t| && t[i] == NULL_ID ==> t[j] == NULL_ID)
    && (forall i, j :: 0 <= i < j < |t| && t[i] == t[j] ==> t[i] == NULL_ID)
  }

  ghost predicate Grows(t: seq<nat>, t': seq<nat>) {
    |t| == |t'| && forall i :: 0 <= i < |t| && t[i] != NULL_ID ==> t'[i] == t[i]
  }

  lemma {:induction false} ProbeMeaning(t: seq<nat>, id: nat)
    ensures var n := Probe(t, id);
            && (n < |t| ==> t[n] == NULL_ID || t[n] == id)
            && forall i :: 0 <= i < n ==> t[i] != NULL_ID && t[i] != id
  {
    if t != [] && t[0] != NULL_ID && t[0] != id {
      ProbeMeaning(t[1..], id);
      assert forall i :: 0 < i < |t| ==> t[i] == t[1..][i - 1];
    }
  }

  lemma PlaceKeeps(t: seq<nat>, id: nat)
    requires Packed(t)
    ensures Packed(Place(t, id)) && Grows(t, Place(t, id))
  {
    ProbeMeaning(t, id);
  }

  lemma {:induction false} RunKeeps(s: State, cs: seq<Call>)
    requires Packed(s.table)
    ensures Packed(RunCalls(s, cs).table) && Grows(s.table, RunCalls(s, cs).table)
    ensures s.active ==> RunCalls(s, cs).active
    decreases |cs|
  {
    if cs != [] {
      PlaceKeeps(s.table, cs[0].id);
      RunKeeps(Step(s, cs[0]), cs[1..]);
    }
  }

  /** Exhaustion is reported exactly when every slot belongs to another thread. */
  lemma ExhaustedIff(s: State, c: Call)
    requires Packed(s.table) && (s.active || c.running)
    ensures SlotOf(s, c) == |s.table| <==>
            forall i :: 0 <= i < |s.table| ==> s.table[i] != NULL_ID && s.table[i] != c.id
  {
    ProbeMeaning(s.table, c.id);
  }

  /** A thread that got a slot gets the same one at any later time, whoever calls in between. */
  lemma SlotKept(s: State, c: Call, between: seq<Call>, again: Call)
    requires Packed(s.table) && c.id != NULL_ID
    requires again.id == c.id && (s.active || c.running) && SlotOf(s, c) < |s.table|
    ensures SlotOf(RunCalls(Step(s, c), between), again) == SlotOf(s, c)
  {
    PlaceKeeps(s.table, c.id);
    ProbeMeaning(s.table, c.id);
    var s' := RunCalls(Step(s, c), between);
    RunKeeps(Step(s, c), between);
    ProbeMeaning(s'.table, c.id);
    assert s'.table[SlotOf(s, c)] == c.id;
  }

  /** Different threads that got slots never share one, and neither got the pre-kernel slot. */
  lemma SlotsApart(s: State, c: Call, between: seq<Call>, other: Call)
    requires Packed(s.table) && c.id != NULL_ID && other.id != c.id
    requires (s.active || c.running) && SlotOf(s, c) < |s.table|
    ensures SlotOf(RunCalls(Step(s, c), between), other) != SlotOf(s, c)
  {
    PlaceKeeps(s.table, c.id);
    ProbeMeaning(s.table, c.id);
    var s' := RunCalls(Step(s, c), between);
    RunKeeps(Step(s, c), between);
    ProbeMeaning(s'.table, other.id);
    assert s'.table[SlotOf(s, c)] == c.id;
  }

  /** A thread that has no slot gets the first free one, behind all occupied ones, and keeps it marked. */
  lemma NewSlot(s: State, c: Call, n: nat)
    requires Packed(s.table) && c.id != NULL_ID && (s.active || c.running)
    requires n <= |s.table| && forall i :: 0 <= i < |s.table| ==> (s.table[i] != NULL_ID <==> i < n)
    requires c.id !in s.table
    ensures SlotOf(s, c) == n
    ensures Step(s, c) == State(if n < |s.table| then s.table[n := c.id] else s.table, true)
  {
    var k := Probe(s.table, c.id);
    ProbeMeaning(s.table, c.id);
    assert k < |s.table| ==> s.table[k] in s.table;
    assert n < |s.table| ==> s.table[n] == NULL_ID;
  }

  /** Before the kernel runs every thread gets the extra slot, and nothing is marked. */
  lemma BeforeKernel(s: State, c: Call)
    requires !s.active && !c.running
    ensures SlotOf(s, c) == |s.table| && Step(s, c) == s
  {
  }

  /** The null id never takes a slot: it gets the one that the next newcomer gets, too. */
  lemma NullShares(s: State, c: Call, newcomer: Call)
    requires Packed(s.table) && c.id == NULL_ID && (s.active || c.running)
    requires forall i :: 0 <= i < |s.table| ==> s.table[i] != newcomer.id || newcomer.id == NULL_ID
    ensures Step(s, c).table == s.table
    ensures SlotOf(Step(s, c), newcomer) == SlotOf(s, c)
  {
    ProbeMeaning(s.table, NULL_ID);
    ProbeMeaning(s.table, newcomer.id);
    var n := Probe(s.table, NULL_ID);
    assert n < |s.table| ==> s.table[n := NULL_ID] == s.table;
  }
}
