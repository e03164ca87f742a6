/**
 Safety of the context shim over every run of calls after initialisation.  The secure side
 is free within its promises; a history of calls and answers is kept beside the state, and
 the table is shown to be exactly what the history says it should be.
 */
module TzTheorems {
  import opened Common
  import opened Bytes
  import opened NsidManager
  import opened TzShim

  // ----- Runs -----

  /** A call that was made, what it returned and what it asked of the secure side. */
  datatype Done = Done(call: Call, ret: UInt32, requests: seq<Request>)

  /** The shim, the tokens held on the secure side, and the history. */
  datatype World = World(st: State, held: set<UInt32>, log: seq<Done>)

  /** A call and, should it initialise the secure side again, the tokens held after that. */
  datatype Turn = Turn(call: Call, reset: set<UInt32>)

  /** What the secure side promises: new tokens are new, held tokens can be released. */
  predicate Promised(held: set<UInt32>, c: Call) {
    match c
    case Alloc(_, acquired) => acquired == INVALID_TOKEN || (acquired != 0 && acquired !in held)
    case Free(id, released) => id in held ==> released
    case _ => true
  }

  function HeldAfter(w: World, t: Turn): set<UInt32> {
    match t.call
    case InitSystem(nsceOk) => if nsceOk then t.reset else w.held
    case Alloc(_, acquired) =>
      if w.st.threadId < THREAD_ID_MAX && acquired != INVALID_TOKEN then w.held + {acquired} else w.held
    case Free(id, released) => if Remove(w.st.table, id).err == Ok && released then w.held - {id} else w.held
    case _ => w.held
  }

  function Play(w: World, t: Turn): World {
    var e := Step(w.st, t.call);
    World(e.st, HeldAfter(w, t), w.log + [Done(t.call, e.ret, e.requests)])
  }

  function PlayAll(w: World, ts: seq<Turn>): World
    decreases |ts|
  {
    if ts == [] then w else PlayAll(Play(w, ts[0]), ts[1..])
  }

  predicate Legal(w: World, ts: seq<Turn>)
    decreases |ts|
  {
    ts == [] || (Promised(w.held, ts[0].call) && Legal(Play(w, ts[0]), ts[1..]))
  }

  /** Just initialised, nothing in the history yet. */
  predicate Started(w: World) {
    && w.log == [] && w.st.active == INVALID_TOKEN && 1 <= w.st.threadId <= THREAD_ID_MAX
    && w.st.table == seq(|w.st.table|, _ => FREE)
  }

  // ----- The invariant -----

  predicate SlotOk(e: Entry, held: set<UInt32>) {
    e == FREE || (e.token != INVALID_TOKEN && e.token != 0 && e.nsid < INVALID_NSID && e.token in held)
  }

  /** Each slot is free or holds a token of the secure side with a negative NSID; no token twice. */
  ghost predicate TableOk(t: seq<Entry>, held: set<UInt32>) {
    && (forall i :: 0 <= i < |t| ==> SlotOk(t[i], held))
    && (forall i, j :: 0 <= i < j < |t| && t[i].token == t[j].token ==> t[i] == FREE)
  }

  ghost predicate Listed(t: seq<Entry>, token: UInt32) {
    exists i :: 0 <= i < |t| && t[i].token == token
  }

  /** What one finished call says about the NSID of a token, given what was said before. */
  function Told(d: Done, token: UInt32, before: int): int {
    if d.call.InitSystem? && d.ret == 1 then INVALID_NSID
    else if d.call.Alloc? && d.ret == token && d.ret != 0 then Signed(d.call.tzModule)
    else if d.call.Free? && d.ret == 1 && d.call.id == token then INVALID_NSID
    else before
  }

  /** The NSID the history assigns to a token: that of the thread whose allocation returned it. */
  function Assigned(log: seq<Done>, token: UInt32): int
    decreases |log|
  {
    if log == [] then INVALID_NSID else Told(log[|log| - 1], token, Assigned(log[..|log| - 1], token))
  }

  ghost predicate TableIsHistory(t: seq<Entry>, log: seq<Done>) {
    forall token :: Query(t, token) == if token == INVALID_TOKEN then INVALID_NSID else Assigned(log, token)
  }

  /** Thread ids passed to acquire, in order. */
  function ThreadIds(log: seq<Done>): seq<nat> {
    if log == [] then []
    else ThreadIds(log[..|log| - 1]) + Ids(log[|log| - 1].requests)
  }

  function Ids(rs: seq<Request>): seq<nat> {
    if rs == [] then [] else (if rs[0].Acquire? then [rs[0].thread] else []) + Ids(rs[1..])
  }

  /** Every load passed the NSID that the history assigned to its token, and it was negative. */
  ghost predicate LoadsRight(log: seq<Done>) {
    forall k, r :: 0 <= k < |log| && r in log[k].requests && r.LoadContext? ==>
      r.nsid == Assigned(log[..k], r.token) < INVALID_NSID
  }

  ghost predicate Inv(w: World, first: nat) {
    && TableOk(w.st.table, w.held)
    && (w.st.active == INVALID_TOKEN || Listed(w.st.table, w.st.active))
    && TableIsHistory(w.st.table, w.log)
    && LoadsRight(w.log)
    && 1 <= first <= w.st.threadId <= THREAD_ID_MAX
    && ThreadIds(w.log) == Upward(first, w.st.threadId)
  }

  /** The numbers from `lo` up to but not including `hi`. */
  function Upward(lo: nat, hi: nat): seq<nat>
    requires lo <= hi
  {
    if lo == hi then [] else Upward(lo, hi - 1) + [hi - 1]
  }

  // ----- The table under its operations -----

  lemma QueryAt(t: seq<Entry>, held: set<UInt32>, i: nat)
    requires TableOk(t, held) && i < |t|
    ensures Query(t, t[i].token) == t[i].nsid
  {
    var j := Find(t, t[i].token);
    if j < i {
      assert t[j] == FREE;
    }
  }

  lemma QueryAbsent(t: seq<Entry>, token: UInt32)
    requires !Listed(t, token)
    ensures Query(t, token) == INVALID_NSID
  {
  }

  lemma AddKeeps(t: seq<Entry>, held: set<UInt32>, nsid: int, token: UInt32)
    requires TableOk(t, held) && (token == INVALID_TOKEN || (token != 0 && token !in held))
    requires Add(t, nsid, token).err == Ok
    ensures var t' := Add(t, nsid, token).table;
            && TableOk(t', held + {token})
            && Query(t', token) == nsid && nsid < INVALID_NSID && token != INVALID_TOKEN
            && (forall x :: x != token ==> Query(t', x) == Query(t, x))
            && (forall x :: x != INVALID_TOKEN && Listed(t, x) ==> Listed(t', x))
  {
    var i := Find(t, INVALID_TOKEN);
    var t' := t[i := Entry(token, nsid)];
    assert TableOk(t', held + {token});
    QueryAt(t', held + {token}, i);
    forall x | x != token ensures Query(t', x) == Query(t, x) {
      SameElsewhere(t, t', held, held + {token}, i, x);
    }
    forall x | x != INVALID_TOKEN && Listed(t, x) ensures Listed(t', x) {
      var j :| 0 <= j < |t| && t[j].token == x;
      assert t'[j].token == x;
    }
  }

  /** A token that neither the old nor the new entry has is looked up as before. */
  lemma SameElsewhere(t: seq<Entry>, t': seq<Entry>, held: set<UInt32>, held': set<UInt32>, i: nat, x: UInt32)
    requires TableOk(t, held) && TableOk(t', held') && |t| == |t'| && i < |t|
    requires forall j :: 0 <= j < |t| && j != i ==> t[j] == t'[j]
    requires x == INVALID_TOKEN || (t[i].token != x && t'[i].token != x)
    ensures Query(t', x) == Query(t, x)
  {
    if x != INVALID_TOKEN {
      var j := Find(t, x);
      if j < |t| {
        QueryAt(t, held, j);
        QueryAt(t', held', j);
      }
    }
  }

  lemma RemoveKeeps(t: seq<Entry>, held: set<UInt32>, token: UInt32)
    requires TableOk(t, held) && Remove(t, token).err == Ok
    ensures var t' := Remove(t, token).table;
            && token in held && TableOk(t', held - {token})
            && Query(t', token) == INVALID_NSID
            && (forall x :: x != token ==> Query(t', x) == Query(t, x))
  {
    var i := Find(t, token);
    var t' := t[i := FREE];
    assert SlotOk(t[i], held);
    assert TableOk(t', held - {token});
    assert !Listed(t', token);
    QueryAbsent(t', token);
    forall x | x != token ensures Query(t', x) == Query(t, x) {
      SameElsewhere(t, t', held, held - {token}, i, x);
    }
  }

  // ----- One call -----

  lemma IdsStep(log: seq<Done>, d: Done)
    ensures ThreadIds(log + [d]) == ThreadIds(log) + Ids(d.requests)
  {
    assert (log + [d])[..|log|] == log;
  }

  lemma LoadsStep(log: seq<Done>, d: Done)
    requires LoadsRight(log)
    requires forall r :: r in d.requests && r.LoadContext? ==> r.nsid == Assigned(log, r.token) < INVALID_NSID
    ensures LoadsRight(log + [d])
  {
    var l := log + [d];
    forall k, r | 0 <= k < |l| && r in l[k].requests && r.LoadContext?
      ensures r.nsid == Assigned(l[..k], r.token) < INVALID_NSID
    {
      if k < |log| {
        assert l[..k] == log[..k] && l[k] == log[k];
      } else {
        assert l[..k] == log && l[k] == d;
      }
    }
  }

  lemma AssignedStep(log: seq<Done>, d: Done, token: UInt32)
    ensures Assigned(log + [d], token) == Told(d, token, Assigned(log, token))
  {
    assert (log + [d])[..|log|] == log;
  }

  /** The history part of the invariant, when the table answers as the history says. */
  lemma HistoryStep(w: World, t: Turn)
    requires TableIsHistory(w.st.table, w.log)
    requires var d := Play(w, t).log[|w.log|];
             forall x :: x != INVALID_TOKEN ==> Query(Play(w, t).st.table, x) == Told(d, x, Query(w.st.table, x))
    ensures TableIsHistory(Play(w, t).st.table, Play(w, t).log)
  {
    var w' := Play(w, t);
    forall x ensures Query(w'.st.table, x) == if x == INVALID_TOKEN then INVALID_NSID else Assigned(w'.log, x) {
      AssignedStep(w.log, w'.log[|w.log|], x);
      assert x != INVALID_TOKEN ==> Query(w.st.table, x) == Assigned(w.log, x);
    }
  }

  lemma InitKeeps(w: World, t: Turn, first: nat)
    requires Inv(w, first) && t.call.InitSystem?
    ensures Inv(Play(w, t), first)
  {
    var w' := Play(w, t);
    var d := w'.log[|w.log|];
    IdsStep(w.log, d);
    LoadsStep(w.log, d);
    assert Ids([]) == [] && ThreadIds(w.log) + [] == ThreadIds(w.log);
    forall x | x != INVALID_TOKEN && t.call.nsceOk ensures Query(w'.st.table, x) == INVALID_NSID {
      QueryAbsent(w'.st.table, x);
    }
    HistoryStep(w, t);
  }

  lemma AllocKeeps(w: World, t: Turn, first: nat)
    requires Inv(w, first) && t.call.Alloc? && Promised(w.held, t.call)
    ensures Inv(Play(w, t), first)
  {
    var w' := Play(w, t);
    var d := w'.log[|w.log|];
    IdsStep(w.log, d);
    LoadsStep(w.log, d);
    if w.st.threadId < THREAD_ID_MAX {
      assert Ids([Acquire(w.st.threadId)]) == [w.st.threadId] + Ids([]) == [w.st.threadId];
      var nsid, token := Signed(t.call.tzModule), t.call.acquired;
      var c := Add(w.st.table, nsid, token);
      if c.err == Ok {
        AddKeeps(w.st.table, w.held, nsid, token);
      } else if token != INVALID_TOKEN {
        HeldGrows(w.st.table, w.held, token);
      }
    } else {
      assert Ids([]) == [] && ThreadIds(w.log) + [] == ThreadIds(w.log);
    }
    HistoryStep(w, t);
  }

  lemma HeldGrows(t: seq<Entry>, held: set<UInt32>, token: UInt32)
    requires TableOk(t, held)
    ensures TableOk(t, held + {token})
  {
  }

  lemma FreeKeeps(w: World, t: Turn, first: nat)
    requires Inv(w, first) && t.call.Free? && Promised(w.held, t.call)
    ensures Inv(Play(w, t), first)
  {
    var w' := Play(w, t);
    var d := w'.log[|w.log|];
    IdsStep(w.log, d);
    LoadsStep(w.log, d);
    assert Ids([]) == [] && Ids([Release(t.call.id)]) == [] + Ids([]) == [];
    assert ThreadIds(w.log) + [] == ThreadIds(w.log);
    if Remove(w.st.table, t.call.id).err == Ok {
      RemoveKeeps(w.st.table, w.held, t.call.id);
    }
    HistoryStep(w, t);
  }

  lemma LoadKeeps(w: World, t: Turn, first: nat)
    requires Inv(w, first) && t.call.Load?
    ensures Inv(Play(w, t), first)
  {
    var w' := Play(w, t);
    var d := w'.log[|w.log|];
    var id := t.call.id;
    var nsid := Query(w.st.table, id);
    IdsStep(w.log, d);
    assert Ids([]) == [] && Ids([LoadContext(id, nsid)]) == [] + Ids([]) == [];
    assert ThreadIds(w.log) + [] == ThreadIds(w.log);
    assert id != INVALID_TOKEN ==> nsid == Assigned(w.log, id);
    LoadsStep(w.log, d);
    HistoryStep(w, t);
  }

  lemma StoreKeeps(w: World, t: Turn, first: nat)
    requires Inv(w, first) && t.call.Store?
    ensures Inv(Play(w, t), first)
  {
    var w' := Play(w, t);
    var d := w'.log[|w.log|];
    IdsStep(w.log, d);
    assert Ids([]) == [] && Ids([Save(t.call.id)]) == [] + Ids([]) == [];
    assert ThreadIds(w.log) + [] == ThreadIds(w.log);
    LoadsStep(w.log, d);
    HistoryStep(w, t);
  }

  lemma PlayKeeps(w: World, t: Turn, first: nat)
    requires Inv(w, first) && Promised(w.held, t.call)
    ensures Inv(Play(w, t), first)
  {
    match t.call
    case InitSystem(_) => InitKeeps(w, t, first);
    case Alloc(_, _) => AllocKeeps(w, t, first);
    case Free(_, _) => FreeKeeps(w, t, first);
    case Load(_, _) => LoadKeeps(w, t, first);
    case Store(_, _) => StoreKeeps(w, t, first);
  }

  // ----- Every run -----

  lemma StartedOk(w: World)
    requires Started(w)
    ensures Inv(w, w.st.threadId)
  {
    forall x ensures Query(w.st.table, x) == INVALID_NSID {
      if x != INVALID_TOKEN {
        QueryAbsent(w.st.table, x);
      }
    }
  }

  lemma {:induction false} RunKeeps(w: World, ts: seq<Turn>, first: nat)
    requires Inv(w, first) && Legal(w, ts)
    ensures Inv(PlayAll(w, ts), first)
    decreases |ts|
  {
    if ts != [] {
      PlayKeeps(w, ts[0], first);
      RunKeeps(Play(w, ts[0]), ts[1..], first);
    }
  }

  /**
   After every run from initialisation: table tokens are held on the secure side and pairwise
   distinct, a slot is free exactly when its token is invalid and exactly when its NSID is 0,
   and the active token is invalid or in the table.
   */
  lemma TableSafe(w: World, ts: seq<Turn>)
    requires Started(w) && Legal(w, ts)
    ensures var w' := PlayAll(w, ts);
            var t := w'.st.table;
            && (forall i :: 0 <= i < |t| ==>
                  && (t[i].token == INVALID_TOKEN <==> t[i].nsid == INVALID_NSID)
                  && (t[i].token != INVALID_TOKEN ==> t[i].token in w'.held))
            && (forall i, j :: 0 <= i < j < |t| && t[i].token == t[j].token ==> t[i].token == INVALID_TOKEN)
            && (w'.st.active == INVALID_TOKEN || Listed(t, w'.st.active))
  {
    StartedOk(w);
    RunKeeps(w, ts, w.st.threadId);
    var w' := PlayAll(w, ts);
    assert forall i :: 0 <= i < |w'.st.table| ==> SlotOk(w'.st.table[i], w'.held);
  }

  /** In every run each load hands over the negative NSID of the thread whose allocation gave the token. */
  lemma LoadsSafe(w: World, ts: seq<Turn>)
    requires Started(w) && Legal(w, ts)
    ensures LoadsRight(PlayAll(w, ts).log)
  {
    StartedOk(w);
    RunKeeps(w, ts, w.st.threadId);
  }

  /** The token is neither released nor wiped by an initialisation, nor handed out again, after call `j`. */
  ghost predicate Kept(log: seq<Done>, token: UInt32, j: nat, k: nat)
    requires k <= |log|
  {
    forall m :: j < m < k ==>
      && !(log[m].call.InitSystem? && log[m].ret == 1)
      && !(log[m].call.Free? && log[m].ret == 1 && log[m].call.id == token)
      && !(log[m].call.Alloc? && log[m].ret == token && token != 0)
  }

  /** An assigned NSID comes from an allocation that is still in force. */
  lemma {:induction false} AssignedBy(log: seq<Done>, token: UInt32) returns (j: nat)
    requires Assigned(log, token) != INVALID_NSID
    ensures j < |log| && log[j].call.Alloc? && log[j].ret == token && Kept(log, token, j, |log|)
    ensures Assigned(log, token) == Signed(log[j].call.tzModule)
    decreases |log|
  {
    var n := |log| - 1;
    if log[n].call.Alloc? && log[n].ret == token && token != 0 {
      j := n;
    } else {
      j := AssignedBy(log[..n], token);
    }
  }

  /**
   In every run, each load is traced to the allocation that returned its token: the NSID passed on
   is the one given there, and nothing has released the token in between.
   */
  lemma LoadTraced(w: World, ts: seq<Turn>, k: nat, r: Request) returns (j: nat)
    requires Started(w) && Legal(w, ts)
    requires var log := PlayAll(w, ts).log;
             k < |log| && r in log[k].requests && r.LoadContext?
    ensures var log := PlayAll(w, ts).log;
            && j < k && log[j].call.Alloc? && log[j].ret == r.token && Kept(log, r.token, j, k)
            && r.nsid == Signed(log[j].call.tzModule) < INVALID_NSID
  {
    LoadsSafe(w, ts);
    j := AssignedBy(PlayAll(w, ts).log[..k], r.token);
  }

  /** Over a whole run: a token allocated for a named thread is loaded with that thread's NSID only. */
  lemma LoadByName(w: World, ts: seq<Turn>, k: nat, r: Request, name: CString, psaApiTest: bool) returns (j: nat)
    requires Started(w) && Legal(w, ts)
    requires var log := PlayAll(w, ts).log;
             k < |log| && r in log[k].requests && r.LoadContext?
    ensures var log := PlayAll(w, ts).log;
            && j < k && log[j].call.Alloc? && log[j].ret == r.token && Kept(log, r.token, j, k)
            && (log[j].call.tzModule == Unsigned(NsidOf(Pairs(psaApiTest), name)) ==>
                  r.nsid == NsidOf(Pairs(psaApiTest), name))
  {
    j := LoadTraced(w, ts, k, r);
    NsidsAssigned(name, name, psaApiTest);
  }

  /** The casts: a token allocated for a named thread is assigned that thread's NSID. */
  lemma AllocByName(w: World, t: Turn, name: CString, psaApiTest: bool)
    requires t.call.Alloc? && t.call.tzModule == Unsigned(NsidOf(Pairs(psaApiTest), name))
    requires Step(w.st, t.call).ret != 0
    ensures Assigned(Play(w, t).log, Step(w.st, t.call).ret) == NsidOf(Pairs(psaApiTest), name)
  {
    NsidsAssigned(name, name, psaApiTest);
    AssignedStep(w.log, Play(w, t).log[|w.log|], Step(w.st, t.call).ret);
  }

  /** In every run the thread ids passed to acquire count up from the first one and stay below 255. */
  lemma ThreadIdsFresh(w: World, ts: seq<Turn>)
    requires Started(w) && Legal(w, ts)
    ensures var ids := ThreadIds(PlayAll(w, ts).log);
            forall k :: 0 <= k < |ids| ==> ids[k] == w.st.threadId + k && 1 <= ids[k] <= 254
  {
    StartedOk(w);
    RunKeeps(w, ts, w.st.threadId);
    UpwardAt(w.st.threadId, PlayAll(w, ts).st.threadId);
  }

  lemma {:induction false} UpwardAt(lo: nat, hi: nat)
    requires lo <= hi
    ensures |Upward(lo, hi)| == hi - lo
    ensures forall k :: 0 <= k < hi - lo ==> Upward(lo, hi)[k] == lo + k
  {
    if lo < hi {
      UpwardAt(lo, hi - 1);
    }
  }

  /** Once the counter is used up every allocation fails without asking the secure side. */
  lemma AllocExhausted(w: World, ts: seq<Turn>, tzModule: UInt32, acquired: UInt32)
    requires Started(w) && Legal(w, ts)
    requires |ThreadIds(PlayAll(w, ts).log)| == THREAD_ID_MAX - w.st.threadId
    ensures AllocCall(PlayAll(w, ts).st, tzModule, acquired) == Effect(PlayAll(w, ts).st, 0, [])
  {
    StartedOk(w);
    RunKeeps(w, ts, w.st.threadId);
    UpwardAt(w.st.threadId, PlayAll(w, ts).st.threadId);
  }
}
