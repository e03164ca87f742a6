/**
 The token/NSID table of the non-secure side (tfm_nsid_manager.c) and the static
 assignment of NSIDs to threads by name (tfm_nsid_map_table.c).
 */
module NsidManager {
  import opened Common
  import opened Bytes

  const INVALID_TOKEN: UInt32 := 0xFFFF_FFFF
  const INVALID_NSID: int := 0
  const DEFAULT_NSID: int := -1

  datatype Err = Ok | InvalidNsid | InvalidToken | NoFreeEntry

  datatype Entry = Entry(token: UInt32, nsid: int)

  const FREE := Entry(INVALID_TOKEN, INVALID_NSID)

  /** Index of the first entry with the token, or the table size. */
  function Find(t: seq<Entry>, token: UInt32): (i: nat)
    ensures i <= |t|
    ensures i < |t| ==> t[i].token == token
    ensures forall j :: 0 <= j < i ==> t[j].token != token
  {
    if t == [] then 0 else if t[0].token == token then 0 else
      assert forall j :: 0 < j < |t| ==> t[j] == t[1..][j - 1];
      1 + Find(t[1..], token)
  }

  datatype Changed = Changed(err: Err, table: seq<Entry>)

  function Add(t: seq<Entry>, nsid: int, token: UInt32): Changed {
    if nsid >= INVALID_NSID then Changed(InvalidNsid, t)
    else if token == INVALID_TOKEN then Changed(InvalidToken, t)
    else
      var i := Find(t, INVALID_TOKEN);
      if i < |t| then Changed(Ok, t[i := Entry(token, nsid)]) else Changed(NoFreeEntry, t)
  }

  function Remove(t: seq<Entry>, token: UInt32): Changed {
    if token == INVALID_TOKEN then Changed(InvalidToken, t)
    else
      var i := Find(t, token);
      if i < |t| then Changed(Ok, t[i := FREE]) else Changed(InvalidToken, t)
  }

  function Query(t: seq<Entry>, token: UInt32): int {
    if token == INVALID_TOKEN then INVALID_NSID
    else
      var i := Find(t, token);
      if i < |t| then t[i].nsid else INVALID_NSID
  }

  /** The static table and the functions that scan it. */
  class Manager {
    const table: array<Entry>

    constructor (threads: nat)
      ensures fresh(table) && table.Length == threads
    {
      table := new Entry[threads](_ => Entry(0, 0));
    }

    method Init()
      modifies table
      ensures table[..] == seq(table.Length, _ => FREE)
    {
      for i := 0 to table.Length
        invariant forall j :: 0 <= j < i ==> table[j] == FREE
      {
        table[i] := FREE;
      }
    }

    method AddEntry(nsid: int, token: UInt32) returns (err: Err)
      modifies table
      ensures Changed(err, table[..]) == Add(old(table[..]), nsid, token)
    {
      if nsid >= INVALID_NSID {
        return InvalidNsid;
      }
      if token == INVALID_TOKEN {
        return InvalidToken;
      }
      for i := 0 to table.Length
        invariant table[..] == old(table[..])
        invariant forall j :: 0 <= j < i ==> table[j].token != INVALID_TOKEN
      {
        if table[i].token == INVALID_TOKEN {
          FindUnique(table[..], INVALID_TOKEN, i);
          table[i] := Entry(token, nsid);
          return Ok;
        }
      }
      return NoFreeEntry;
    }

    method RemoveEntry(token: UInt32) returns (err: Err)
      modifies table
      ensures Changed(err, table[..]) == Remove(old(table[..]), token)
    {
      if token == INVALID_TOKEN {
        return InvalidToken;
      }
      for i := 0 to table.Length
        invariant table[..] == old(table[..])
        invariant forall j :: 0 <= j < i ==> table[j].token != token
      {
        if table[i].token == token {
          FindUnique(table[..], token, i);
          table[i] := FREE;
          return Ok;
        }
      }
      return InvalidToken;
    }

    method QueryNsid(token: UInt32) returns (nsid: int)
      ensures nsid == Query(table[..], token)
    {
      if token == INVALID_TOKEN {
        return INVALID_NSID;
      }
      for i := 0 to table.Length
        invariant forall j :: 0 <= j < i ==> table[j].token != token
      {
        if table[i].token == token {
          FindUnique(table[..], token, i);
          return table[i].nsid;
        }
      }
      return INVALID_NSID;
    }
  }

  lemma FindUnique(t: seq<Entry>, token: UInt32, i: nat)
    requires i < |t| && t[i].token == token && forall j :: 0 <= j < i ==> t[j].token != token
    ensures Find(t, token) == i
  {
  }

  // ----- NSIDs by thread name -----

  function CharAt(s: CString, i: nat): char {
    if i < |s| then s[i] else '\0'
  }

  method StrCmp(a: CString, b: CString) returns (r: int)
    ensures r == if a == b then 0 else 1
  {
    r := 0;
    var i := 0;
    while CharAt(a, i) != '\0' || CharAt(b, i) != '\0'
      invariant i <= |a| && i <= |b| && a[..i] == b[..i]
      decreases |a| - i
    {
      if CharAt(a, i) != CharAt(b, i) {
        return 1;
      }
      assert CharAt(a, i) == a[i] && CharAt(b, i) == b[i];
      i := i + 1;
    }
    assert i == |a| == |b|;
    assert a == a[..i] && b == b[..i];
  }

  datatype Pair = Pair(name: CString, nsid: int)

  /** The pre-assigned NSIDs; the last one only in builds with the PSA API tests. */
  function Pairs(psaApiTest: bool): seq<Pair> {
    [Pair("Thread_A", -2), Pair("Thread_B", -3), Pair("Thread_C", -4), Pair("Thread_D", -5),
     Pair("seq_task", -6), Pair("mid_task", -7), Pair("pri_task", -8)] +
    if psaApiTest then [Pair("psa_api_test", -9)] else []
  }

  datatype ThreadName = NullName | Named(s: CString)

  /** The NSID of the entry with the name, the default when there is none. */
  method GetThreadNsid(name: ThreadName, psaApiTest: bool) returns (r: int)
    ensures name.NullName? ==> r == DEFAULT_NSID
    ensures name.Named? ==> r == NsidOf(Pairs(psaApiTest), name.s)
  {
    if name.NullName? {
      return DEFAULT_NSID;
    }
    var t := Pairs(psaApiTest);
    assert t[0..] == t;
    for i := 0 to |t|
      invariant NsidOf(t[i..], name.s) == NsidOf(t, name.s)
    {
      var c := StrCmp(t[i].name, name.s);
      assert t[i..][0] == t[i] && t[i..][1..] == t[i + 1..];
      if c == 0 {
        return t[i].nsid;
      }
    }
    return DEFAULT_NSID;
  }

  function NsidOf(t: seq<Pair>, name: CString): int {
    if t == [] then DEFAULT_NSID else if t[0].name == name then t[0].nsid else NsidOf(t[1..], name)
  }

  lemma {:induction false} NsidOfEntry(t: seq<Pair>, name: CString) returns (i: nat)
    ensures NsidOf(t, name) != DEFAULT_NSID ==> i < |t| && t[i] == Pair(name, NsidOf(t, name))
  {
    i := 0;
    if t != [] && t[0].name != name {
      i := NsidOfEntry(t[1..], name);
      i := i + 1;
    }
  }

  /** Every thread gets a negative NSID that survives the casts, and no two threads share a pre-assigned one. */
  lemma NsidsAssigned(a: CString, b: CString, psaApiTest: bool)
    ensures var n := NsidOf(Pairs(psaApiTest), a);
            && -9 <= n <= -1 && Signed(Unsigned(n)) == n
            && (n == NsidOf(Pairs(psaApiTest), b) != DEFAULT_NSID ==> a == b)
  {
    var t := Pairs(psaApiTest);
    var i := NsidOfEntry(t, a);
    var j := NsidOfEntry(t, b);
    assert forall k :: 0 <= k < |t| ==> t[k].nsid == -2 - k;
    SignedUnsigned(NsidOf(t, a));
  }
}
