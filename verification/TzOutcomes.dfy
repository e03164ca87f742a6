/**
 When the calls of the context shim succeed, what they return, what they ask of the secure
 side and what changes: each for every state reached from initialisation.
 */
module TzOutcomes {
  import opened Common
  import opened Bytes
  import opened NsidManager
  import opened TzShim
  import opened TzTheorems

  // ----- The table -----

  /** Adding succeeds iff the NSID is negative, the token valid and any slot free; the pair goes into one free slot. */
  lemma AddMeaning(t: seq<Entry>, nsid: int, token: UInt32)
    ensures Add(t, nsid, token).err == Ok <==>
            nsid < 0 && token != 0xFFFF_FFFF && exists i :: 0 <= i < |t| && t[i].token == 0xFFFF_FFFF
    ensures Add(t, nsid, token).err == Ok ==>
              exists i :: 0 <= i < |t| && t[i].token == 0xFFFF_FFFF &&
                          Add(t, nsid, token).table == t[i := Entry(token, nsid)]
    ensures Add(t, nsid, token).err != Ok ==> Add(t, nsid, token).table == t
    ensures nsid >= 0 ==> Add(t, nsid, token).err == InvalidNsid
    ensures nsid < 0 && token == 0xFFFF_FFFF ==> Add(t, nsid, token).err == InvalidToken
  {
    var i := Find(t, INVALID_TOKEN);
    assert i < |t| ==> t[i].token == 0xFFFF_FFFF;
  }

  /** Removing succeeds iff the token is valid and in the table; it frees one slot that had it. */
  lemma RemoveMeaning(t: seq<Entry>, token: UInt32)
    ensures Remove(t, token).err == Ok <==> token != 0xFFFF_FFFF && Listed(t, token)
    ensures Remove(t, token).err == Ok ==>
              exists i :: 0 <= i < |t| && t[i].token == token && Remove(t, token).table == t[i := Entry(0xFFFF_FFFF, 0)]
    ensures Remove(t, token).err != Ok ==> Remove(t, token) == Changed(InvalidToken, t)
  {
    var i := Find(t, token);
    assert i < |t| ==> t[i].token == token;
  }

  /** The query answers with a negative number iff the token is valid and in the table. */
  lemma QueryMeaning(t: seq<Entry>, held: set<UInt32>, token: UInt32)
    requires TableOk(t, held)
    ensures Query(t, token) < 0 <==> token != 0xFFFF_FFFF && Listed(t, token)
    ensures Query(t, token) >= 0 ==> Query(t, token) == 0
    ensures forall i :: 0 <= i < |t| && t[i].token == token != 0xFFFF_FFFF ==> Query(t, token) == t[i].nsid
  {
    forall i | 0 <= i < |t| && t[i].token == token != 0xFFFF_FFFF ensures Query(t, token) == t[i].nsid < 0 {
      QueryAt(t, held, i);
      assert SlotOk(t[i], held);
    }
  }

  // ----- Calls after a run -----

  /** A slot is free. */
  ghost predicate Room(t: seq<Entry>) {
    exists i :: 0 <= i < |t| && t[i].token == 0xFFFF_FFFF
  }

  /** Initialising succeeds iff the secure side does; then every slot is free, no token active, and the ids go on. */
  lemma InitOutcome(s: State, nsceOk: bool)
    ensures var e := Step(s, InitSystem(nsceOk));
            && e.ret == (if nsceOk then 1 else 0) && e.requests == [] && e.st.threadId == s.threadId
            && |e.st.table| == |s.table|
            && (!nsceOk ==> e.st == s)
            && (nsceOk ==>
                  && e.st.active == 0xFFFF_FFFF
                  && forall i :: 0 <= i < |s.table| ==> e.st.table[i] == Entry(0xFFFF_FFFF, 0))
  {
  }

  /**
   An allocation returns the token the secure side gave iff one of the 254 ids is left, the NSID is
   negative, the token is valid and a slot is free; otherwise 0, and the table stays.  The
   secure side is asked iff an id is left, with the next one.
   */
  lemma AllocOutcome(w: World, ts: seq<Turn>, tzModule: UInt32, acquired: UInt32)
    requires Started(w) && w.st.threadId == 1 && Legal(w, ts)
    requires Promised(PlayAll(w, ts).held, Alloc(tzModule, acquired))
    ensures var s, used := PlayAll(w, ts).st, |ThreadIds(PlayAll(w, ts).log)|;
            var e := Step(s, Alloc(tzModule, acquired));
            && used <= 254
            && (e.ret == acquired != 0xFFFF_FFFF <==>
                  used < 254 && Signed(tzModule) < 0 && acquired != 0xFFFF_FFFF && Room(s.table))
            && (e.ret == acquired != 0xFFFF_FFFF ==>
                  exists i :: 0 <= i < |s.table| && s.table[i].token == 0xFFFF_FFFF &&
                              e.st.table == s.table[i := Entry(acquired, Signed(tzModule))])
            && (!(e.ret == acquired != 0xFFFF_FFFF) ==> e.ret == 0 && e.st.table == s.table)
            && e.requests == (if used < 254 then [Acquire(used + 1)] else [])
            && e.st.active == s.active
  {
    var w' := PlayAll(w, ts);
    StartedOk(w);
    RunKeeps(w, ts, 1);
    UpwardAt(1, w'.st.threadId);
    AddMeaning(w'.st.table, Signed(tzModule), acquired);
  }

  /** Freeing returns 1 iff the token is valid and in the table; it asks for the release and leaves no token active. */
  lemma FreeOutcome(w: World, ts: seq<Turn>, id: UInt32, released: bool)
    requires Started(w) && Legal(w, ts) && Promised(PlayAll(w, ts).held, Free(id, released))
    ensures var s := PlayAll(w, ts).st;
            var e := Step(s, Free(id, released));
            if id != 0xFFFF_FFFF && Listed(s.table, id) then
              && e.ret == 1 && e.requests == [Release(id)] && e.st.active == 0xFFFF_FFFF
              && !Listed(e.st.table, id)
              && (forall x :: x != 0xFFFF_FFFF && x != id ==> (Listed(e.st.table, x) <==> Listed(s.table, x)))
            else e == Effect(s, 0, [])
  {
    var w' := PlayAll(w, ts);
    StartedOk(w);
    RunKeeps(w, ts, w.st.threadId);
    var t := w'.st.table;
    RemoveMeaning(t, id);
    if id != 0xFFFF_FFFF && Listed(t, id) {
      RemoveKeeps(t, w'.held, id);
      assert id in w'.held;
      var i :| 0 <= i < |t| && t[i].token == id && Remove(t, id).table == t[i := Entry(0xFFFF_FFFF, 0)];
      RemovedListed(t, w'.held, id, i);
    }
  }

  lemma RemovedListed(t: seq<Entry>, held: set<UInt32>, id: UInt32, i: nat)
    requires TableOk(t, held) && i < |t| && t[i].token == id != 0xFFFF_FFFF
    ensures var t' := t[i := Entry(0xFFFF_FFFF, 0)];
            && !Listed(t', id)
            && forall x :: x != 0xFFFF_FFFF && x != id ==> (Listed(t', x) <==> Listed(t, x))
  {
    var t' := t[i := Entry(0xFFFF_FFFF, 0)];
    forall x | x != 0xFFFF_FFFF && x != id ensures Listed(t', x) <==> Listed(t, x) {
      if Listed(t, x) {
        var j :| 0 <= j < |t| && t[j].token == x;
        assert t'[j].token == x;
      }
      if Listed(t', x) {
        var j :| 0 <= j < |t| && t'[j].token == x;
        assert t[j].token == x;
      }
    }
  }

  /**
   Loading asks the secure side iff the token is valid and in the table, which is iff an allocation
   returned it and nothing has released it since; it returns 1 and makes the token active iff
   the secure side then loads it.
   */
  lemma LoadOutcome(w: World, ts: seq<Turn>, id: UInt32, loaded: bool)
    requires Started(w) && Legal(w, ts)
    ensures var s, log := PlayAll(w, ts).st, PlayAll(w, ts).log;
            var e := Step(s, Load(id, loaded));
            && (id != 0xFFFF_FFFF ==> (Listed(s.table, id) <==> Assigned(log, id) < 0))
            && if id != 0xFFFF_FFFF && Listed(s.table, id) then
                 e == Effect(if loaded then State(s.table, s.threadId, id) else s, if loaded then 1 else 0,
                             [LoadContext(id, Assigned(log, id))])
               else e == Effect(s, 0, [])
  {
    var w' := PlayAll(w, ts);
    StartedOk(w);
    RunKeeps(w, ts, w.st.threadId);
    QueryMeaning(w'.st.table, w'.held, id);
    assert id != 0xFFFF_FFFF ==> Query(w'.st.table, id) == Assigned(w'.log, id);
  }

  /** Storing returns 1 and leaves no token active iff the secure side saves; the table stays. */
  lemma StoreOutcome(s: State, id: UInt32, saved: bool)
    ensures var e := Step(s, Store(id, saved));
            && e.requests == [Save(id)] && e.st.table == s.table && e.st.threadId == s.threadId
            && (e.ret == 1 <==> saved) && (e.ret == 0 <==> !saved)
            && e.st.active == if saved then 0xFFFF_FFFF else s.active
  {
  }

  /** The NSID of every thread name. */
  lemma NsidByName(name: CString, psaApiTest: bool)
    ensures NsidOf(Pairs(psaApiTest), name) ==
            if name == "Thread_A" then -2
            else if name == "Thread_B" then -3
            else if name == "Thread_C" then -4
            else if name == "Thread_D" then -5
            else if name == "seq_task" then -6
            else if name == "mid_task" then -7
            else if name == "pri_task" then -8
            else if name == "psa_api_test" && psaApiTest then -9
            else -1
  {
    var t := Pairs(psaApiTest);
    NsidFrom(t, name, 0);
    NsidFrom(t, name, 1);
    NsidFrom(t, name, 2);
    NsidFrom(t, name, 3);
    NsidFrom(t, name, 4);
    NsidFrom(t, name, 5);
    NsidFrom(t, name, 6);
    if psaApiTest {
      NsidFrom(t, name, 7);
    }
  }

  lemma NsidFrom(t: seq<Pair>, name: CString, i: nat)
    requires i < |t|
    ensures NsidOf(t[i..], name) == if t[i].name == name then t[i].nsid else NsidOf(t[i + 1..], name)
    ensures t[0..] == t && NsidOf(t[|t|..], name) == -1
  {
    assert t[i..][0] == t[i] && t[i..][1..] == t[i + 1..];
  }
}
