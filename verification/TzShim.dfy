/**
 The TrustZone context shim (tz_shim_layer.c): five calls of the RTOS, a counter of thread
 ids, the table of the NSID manager and the token that is active on the secure side.  The
 secure side itself is not here: what it answers comes with each call, restricted only by
 what it promises (a token it hands out is new, a token it holds can be released).
 */
module TzShim {
  import opened Common
  import opened NsidManager

  const THREAD_ID_MAX := 0xFF

  // ----- Values -----

  datatype State = State(table: seq<Entry>, threadId: nat, active: UInt32)

  /** A call with the answers of the secure side to the calls it may lead to. */
  datatype Call =
    | InitSystem(nsceOk: bool)
    | Alloc(tzModule: UInt32, acquired: UInt32)
    | Free(id: UInt32, released: bool)
    | Load(id: UInt32, loaded: bool)
    | Store(id: UInt32, saved: bool)

  /** What the secure side is asked to do, in order. */
  datatype Request =
    | Acquire(thread: nat)
    | Release(token: UInt32)
    | LoadContext(token: UInt32, nsid: int)
    | Save(token: UInt32)

  datatype Effect = Effect(st: State, ret: UInt32, requests: seq<Request>)

  function InitCall(s: State, nsceOk: bool): Effect {
    if !nsceOk then Effect(s, 0, [])
    else Effect(s.(table := seq(|s.table|, _ => FREE), active := INVALID_TOKEN), 1, [])
  }

  function AllocCall(s: State, tzModule: UInt32, acquired: UInt32): Effect {
    if s.threadId >= THREAD_ID_MAX then Effect(s, 0, [])
    else
      var c := Add(s.table, Signed(tzModule), acquired);
      Effect(s.(table := c.table, threadId := s.threadId + 1), if c.err == Ok then acquired else 0,
             [Acquire(s.threadId)])
  }

  function FreeCall(s: State, id: UInt32, released: bool): Effect {
    var c := Remove(s.table, id);
    if c.err != Ok then Effect(s, 0, [])
    else if released then Effect(s.(table := c.table, active := INVALID_TOKEN), 1, [Release(id)])
    else Effect(s.(table := c.table), 0, [Release(id)])
  }

  function LoadCall(s: State, id: UInt32, loaded: bool): Effect {
    var nsid := Query(s.table, id);
    if nsid >= INVALID_NSID then Effect(s, 0, [])
    else if loaded then Effect(s.(active := id), 1, [LoadContext(id, nsid)])
    else Effect(s, 0, [LoadContext(id, nsid)])
  }

  function StoreCall(s: State, id: UInt32, saved: bool): Effect {
    if saved then Effect(s.(active := INVALID_TOKEN), 1, [Save(id)]) else Effect(s, 0, [Save(id)])
  }

  function Step(s: State, c: Call): Effect {
    match c
    case InitSystem(nsceOk) => InitCall(s, nsceOk)
    case Alloc(m, acquired) => AllocCall(s, m, acquired)
    case Free(id, released) => FreeCall(s, id, released)
    case Load(id, loaded) => LoadCall(s, id, loaded)
    case Store(id, saved) => StoreCall(s, id, saved)
  }

  // ----- The module's static state -----

  class Shim {
    const mgr: Manager
    var threadId: nat
    var active: UInt32

    constructor (threads: nat)
      ensures fresh(mgr) && fresh(mgr.table) && mgr.table.Length == threads
      ensures threadId == 1 && active == 0
    {
      mgr := new Manager(threads);
      threadId := 1;
      active := 0;
    }

    ghost function View(): State
      reads this, mgr.table
    {
      State(mgr.table[..], threadId, active)
    }

    method InitContextSystem(nsceOk: bool) returns (ret: UInt32)
      modifies this, mgr.table
      ensures var e := InitCall(old(View()), nsceOk); View() == e.st && ret == e.ret
    {
      if !nsceOk {
        return 0;
      }
      mgr.Init();
      active := INVALID_TOKEN;
      return 1;
    }

    method AllocModuleContext(tzModule: UInt32, acquired: UInt32) returns (ret: UInt32, ghost requests: seq<Request>)
      modifies this, mgr.table
      ensures Effect(View(), ret, requests) == AllocCall(old(View()), tzModule, acquired)
    {
      requests := [];
      var nsid := Signed(tzModule);
      if threadId >= THREAD_ID_MAX {
        return 0, requests;
      }
      requests := [Acquire(threadId)];
      threadId := threadId + 1;
      var err := mgr.AddEntry(nsid, acquired);
      ret := if err == Ok then acquired else 0;
    }

    method FreeModuleContext(id: UInt32, released: bool) returns (ret: UInt32, ghost requests: seq<Request>)
      modifies this, mgr.table
      ensures Effect(View(), ret, requests) == FreeCall(old(View()), id, released)
    {
      requests := [];
      var err := mgr.RemoveEntry(id);
      if err != Ok {
        return 0, requests;
      }
      requests := [Release(id)];
      if released {
        if active != INVALID_TOKEN {
          active := INVALID_TOKEN;
        }
        return 1, requests;
      }
      return 0, requests;
    }

    method LoadContextS(id: UInt32, loaded: bool) returns (ret: UInt32, ghost requests: seq<Request>)
      modifies this
      ensures Effect(View(), ret, requests) == LoadCall(old(View()), id, loaded)
    {
      requests := [];
      var nsid := mgr.QueryNsid(id);
      if nsid >= INVALID_NSID {
        return 0, requests;
      }
      requests := [LoadContext(id, nsid)];
      if loaded {
        active := id;
        return 1, requests;
      }
      return 0, requests;
    }

    method StoreContextS(id: UInt32, saved: bool) returns (ret: UInt32)
      modifies this
      ensures var e := StoreCall(old(View()), id, saved); View() == e.st && ret == e.ret
    {
      if saved {
        if active != INVALID_TOKEN {
          active := INVALID_TOKEN;
        }
        return 1;
      }
      return 0;
    }
  }
}
