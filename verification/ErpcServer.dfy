/**
 The server side of a remote psa_call: the shim that reads the two vectors into allocated
 blocks, calls the service through its wrapper, writes the reply and frees the blocks
 (erpc/generated_files/tfm_erpc_server.cpp, erpc/server/erpc_server_wrapper.c).
 */
module ErpcServer {
  import opened Common
  import opened Bytes
  import opened ErpcCodec

  // ----- The service -----

  /** An output vector after a call: the whole buffer and the length the service reports. */
  datatype Filled = Filled(data: Blob, len: nat)

  datatype Reply = Reply(status: int, outs: seq<Filled>)

  type Service = (int, int, seq<Blob>, seq<Blob>) -> Reply

  /** One reply that keeps every output within the buffer it was given. */
  ghost predicate Conforms(r: Reply, outs: seq<Blob>) {
    && -0x8000_0000 <= r.status < 0x8000_0000
    && |r.outs| == |outs|
    && forall i :: 0 <= i < |outs| ==> |r.outs[i].data| == |outs[i]| && r.outs[i].len <= |outs[i]|
  }

  ghost predicate WellBehaved(service: Service) {
    forall h, t, ins, outs :: Conforms(service(h, t, ins, outs), outs)
  }

  /** The bytes of the outputs that travel back. */
  function Sent(outs: seq<Filled>): (l: seq<Blob>)
    requires forall i :: 0 <= i < |outs| ==> outs[i].len <= |outs[i].data|
    ensures |l| == |outs|
  {
    seq(|outs|, i requires 0 <= i < |outs| => outs[i].data[..outs[i].len])
  }

  // ----- The heap -----

  datatype Ptr = Null | Block(id: nat)

  /** Some allocation with a number from `lo` up to `hi` fails. */
  ghost predicate Failed(fails: nat -> bool, lo: nat, hi: nat) {
    exists k :: lo <= k < hi && fails(k)
  }

  /** An allocation for a non-empty element fails; the element allocations are numbered from `n`. */
  ghost predicate Starved(fails: nat -> bool, n: nat, l: seq<Blob>) {
    exists i :: 0 <= i < |l| && l[i] != [] && fails(n + i)
  }

  /** Which blocks are allocated; any allocation that may fail does so when the oracle says. */
  class Heap {
    const fails: nat -> bool
    var live: set<nat>
    var next: nat

    ghost predicate Valid()
      reads this
    {
      forall b :: b in live ==> b < next
    }

    constructor (fails: nat -> bool)
      ensures Valid() && live == {} && this.fails == fails
    {
      this.fails := fails;
      live := {};
      next := 0;
    }

    /** erpc_malloc; the blocks it returns are never the same twice. */
    method Malloc(mayFail: bool) returns (p: Ptr)
      requires Valid()
      modifies this
      ensures Valid() && next == old(next) + 1
      ensures p.Block? ==> p.id == old(next) && live == old(live) + {p.id}
      ensures p.Null? ==> live == old(live)
      ensures p.Null? <==> mayFail && fails(old(next))
    {
      if mayFail && fails(next) {
        p := Null;
      } else {
        p := Block(next);
        live := live + {next};
      }
      next := next + 1;
    }

    /** erpc_free of an allocated block: freeing anything else would not verify. */
    method Free(b: nat)
      requires Valid() && b in live
      modifies this`live
      ensures Valid() && live == old(live) - {b}
    {
      live := live - {b};
    }
  }

  // ----- Lists in memory -----

  /** A binary_t: its block, the bytes in it, and its dataLength. */
  datatype Elem = Elem(ptr: Ptr, data: Blob, len: nat)

  function Datas(es: seq<Elem>): (l: seq<Blob>)
    ensures |l| == |es|
  {
    seq(|es|, i requires 0 <= i < |es| => es[i].data)
  }

  ghost function IdSet(es: seq<Elem>): set<nat> {
    set e | e in es && e.ptr.Block? :: e.ptr.id
  }

  ghost predicate Distinct(es: seq<Elem>) {
    forall i, j :: 0 <= i < j < |es| && es[i].ptr.Block? && es[j].ptr.Block? ==> es[i].ptr != es[j].ptr
  }

  ghost function IdOf(p: Ptr): set<nat> {
    if p.Block? then {p.id} else {}
  }

  lemma IdSetStep(es: seq<Elem>, e: Elem)
    ensures IdSet(es + [e]) == IdSet(es) + IdOf(e.ptr)
  {
    var l := es + [e];
    assert forall x :: x in l <==> x in es || x == e;
  }

  /** read_binary_t_struct; `short` tells that an allocation failed. */
  method ReadBinary(codec: Codec, heap: Heap) returns (e: Elem, ghost short: bool)
    requires codec.Valid() && heap.Valid()
    modifies codec`pos, codec`ok, heap
    ensures codec.Valid() && heap.Valid() && heap.next == old(heap.next) + 1
    ensures short <==> old(codec.ok) && BlobAt(codec.buf, old(codec.pos)).Some? && heap.fails(old(heap.next)) &&
                       BlobAt(codec.buf, old(codec.pos)).value.value != []
    ensures codec.ok == (old(codec.ok) && BlobAt(codec.buf, old(codec.pos)).Some? && !short)
    ensures codec.ok ==> BlobAt(codec.buf, old(codec.pos)) == Some(Got(e.data, codec.pos)) && e.len == |e.data|
    ensures heap.live == old(heap.live) + IdOf(e.ptr)
    ensures e.ptr.Block? ==> old(heap.next) <= e.ptr.id < heap.next
    ensures short ==> Failed(heap.fails, old(heap.next), heap.next)
  {
    var b := codec.ReadBinary();
    var p := heap.Malloc(true);
    if p.Null? && |b| > 0 {
      codec.Fail();
      e, short := Elem(Null, [], |b|), true;
    } else {
      e, short := Elem(p, b, |b|), false;
    }
  }

  /** The elements read so far are a beginning of the list, and the rest is still ahead. */
  ghost predicate Ahead(buf: seq<byte>, start: nat, count: nat, l: seq<Blob>, pos: nat) {
    && |l| <= count
    && var all, rest := BlobsAt(buf, start, count), BlobsAt(buf, pos, count - |l|);
       && (all.Some? <==> rest.Some?)
       && (all.Some? ==> all.value == Got(l + rest.value.value, rest.value.pos))
  }

  lemma AheadStep(buf: seq<byte>, start: nat, count: nat, l: seq<Blob>, pos: nat)
    requires Ahead(buf, start, count, l, pos) && |l| < count
    ensures var b := BlobAt(buf, pos);
            if b.Some? then Ahead(buf, start, count, l + [b.value.value], b.value.pos)
            else BlobsAt(buf, start, count).None?
  {
    var b := BlobAt(buf, pos);
    if b.Some? {
      var rest := BlobsAt(buf, b.value.pos, count - |l| - 1);
      if rest.Some? {
        assert l + ([b.value.value] + rest.value.value) == l + [b.value.value] + rest.value.value;
      }
    }
  }

  lemma NotStarved(fails: nat -> bool, n: nat, es: seq<Elem>)
    requires NoneStarved(fails, n, es)
    ensures !Starved(fails, n, Datas(es))
  {
  }

  /** The element that could not be allocated is one of the list. */
  lemma StarvedHere(fails: nat -> bool, n: nat, buf: seq<byte>, start: nat, count: nat, l: seq<Blob>, pos: nat)
    requires Ahead(buf, start, count, l, pos) && |l| < count && BlobsAt(buf, start, count).Some?
    requires BlobAt(buf, pos).Some? && BlobAt(buf, pos).value.value != [] && fails(n + |l|)
    ensures Starved(fails, n, BlobsAt(buf, start, count).value.value)
  {
    AheadStep(buf, start, count, l, pos);
    var all := BlobsAt(buf, start, count).value.value;
    assert all[|l|] == BlobAt(buf, pos).value.value;
  }

  lemma AheadStart(buf: seq<byte>, start: nat, count: nat)
    ensures Ahead(buf, start, count, [], start)
  {
    var all := BlobsAt(buf, start, count);
    assert all.Some? ==> [] + all.value.value == all.value.value;
  }

  lemma AheadEnd(buf: seq<byte>, start: nat, count: nat, l: seq<Blob>, pos: nat)
    requires Ahead(buf, start, count, l, pos) && |l| == count
    ensures BlobsAt(buf, start, count) == Some(Got(l, pos))
  {
    assert l + [] == l;
  }

  lemma DatasStep(es: seq<Elem>, e: Elem)
    ensures Datas(es + [e]) == Datas(es) + [e.data]
  {
  }

  /** The loop of read_list_binary_1_t_struct over `count` elements */
  method ReadElements(codec: Codec, heap: Heap, count: nat) returns (es: seq<Elem>, ghost short: bool)
    requires codec.Valid() && heap.Valid()
    modifies codec`pos, codec`ok, heap
    ensures codec.Valid() && heap.Valid() && heap.next == old(heap.next) + count && |es| == count
    ensures !old(codec.ok) ==> !short
    ensures old(codec.ok) && BlobsAt(codec.buf, old(codec.pos), count).Some? ==>
              (short <==> Starved(heap.fails, old(heap.next), BlobsAt(codec.buf, old(codec.pos), count).value.value))
    ensures codec.ok == (old(codec.ok) && BlobsAt(codec.buf, old(codec.pos), count).Some? && !short)
    ensures codec.ok ==> BlobsAt(codec.buf, old(codec.pos), count) == Some(Got(Datas(es), codec.pos)) && AllLoaded(es)
    ensures Allocated(heap.live, old(heap.live), old(heap.next), es)
    ensures short ==> Failed(heap.fails, old(heap.next), heap.next)
  {
    es, short := [], false;
    ghost var start, n, wasOk := codec.pos, heap.next, codec.ok;
    AheadStart(codec.buf, start, count);
    while |es| < count
      invariant codec.Valid() && heap.Valid() && heap.next == n + |es| && |es| <= count
      invariant Progress(codec.buf, start, count, heap.fails, n, wasOk, es, codec.ok, short, codec.pos)
      invariant Allocated(heap.live, old(heap.live), n, es)
      decreases count - |es|
    {
      ghost var ok, at := codec.ok, codec.pos;
      var e; ghost var s;
      ghost var before := heap.live;
      ghost var fresh' := heap.next;
      e, s := ReadBinary(codec, heap);
      AllocatedStep(heap.live, before, old(heap.live), n, fresh', es, e);
      ProgressStep(codec.buf, start, count, heap.fails, n, wasOk, es, ok, short, at, e, s, codec.ok, codec.pos);
      short := short || s;
      es := es + [e];
    }
    ProgressEnd(codec.buf, start, count, heap.fails, n, wasOk, es, codec.ok, short, codec.pos);
  }

  /** How far reading has come after the elements `es`: a clean status means that all went well so far. */
  ghost predicate Progress(buf: seq<byte>, start: nat, count: nat, fails: nat -> bool, n: nat, wasOk: bool,
                           es: seq<Elem>, ok: bool, short: bool, pos: nat)
  {
    && (!wasOk ==> !short && !ok)
    && (ok ==> wasOk && !short && Ahead(buf, start, count, Datas(es), pos))
    && (ok ==> AllLoaded(es) && NoneStarved(fails, n, es))
    && (!ok ==> !wasOk || short || BlobsAt(buf, start, count).None?)
    && (short ==> Failed(fails, n, n + |es|))
    && (short && BlobsAt(buf, start, count).Some? ==> Starved(fails, n, BlobsAt(buf, start, count).value.value))
  }

  ghost predicate NoneStarved(fails: nat -> bool, n: nat, es: seq<Elem>) {
    forall i :: 0 <= i < |es| && es[i].data != [] ==> !fails(n + i)
  }

  lemma ProgressStep(buf: seq<byte>, start: nat, count: nat, fails: nat -> bool, n: nat, wasOk: bool,
                     es: seq<Elem>, ok: bool, short: bool, pos: nat, e: Elem, s: bool, ok': bool, pos': nat)
    requires Progress(buf, start, count, fails, n, wasOk, es, ok, short, pos) && |es| < count
    requires var b := BlobAt(buf, pos);
             && (s <==> ok && b.Some? && fails(n + |es|) && b.value.value != [])
             && ok' == (ok && b.Some? && !s)
             && (ok' ==> b == Some(Got(e.data, pos')) && e.len == |e.data|)
    ensures Progress(buf, start, count, fails, n, wasOk, es + [e], ok', short || s, pos')
  {
    if ok {
      AheadStep(buf, start, count, Datas(es), pos);
      DatasStep(es, e);
      if s && BlobsAt(buf, start, count).Some? {
        StarvedHere(fails, n, buf, start, count, Datas(es), pos);
      }
    }
    if short || s {
      FailedGrows(fails, n, n + |es|);
    }
  }

  lemma FailedGrows(fails: nat -> bool, lo: nat, hi: nat)
    requires lo <= hi
    ensures Failed(fails, lo, hi) || fails(hi) <==> Failed(fails, lo, hi + 1)
  {
  }

  lemma ProgressEnd(buf: seq<byte>, start: nat, count: nat, fails: nat -> bool, n: nat, wasOk: bool,
                    es: seq<Elem>, ok: bool, short: bool, pos: nat)
    requires Progress(buf, start, count, fails, n, wasOk, es, ok, short, pos) && |es| == count
    ensures ok == (wasOk && BlobsAt(buf, start, count).Some? && !short)
    ensures ok ==> BlobsAt(buf, start, count) == Some(Got(Datas(es), pos)) && AllLoaded(es)
    ensures wasOk && BlobsAt(buf, start, count).Some? ==>
              (short <==> Starved(fails, n, BlobsAt(buf, start, count).value.value))
  {
    if ok {
      AheadEnd(buf, start, count, Datas(es), pos);
      NotStarved(fails, n, es);
    }
  }

  ghost predicate AllLoaded(es: seq<Elem>) {
    forall i :: 0 <= i < |es| ==> es[i].len == |es[i].data|
  }

  /** The allocated blocks are those of before and one for each element that has one, all of these new. */
  ghost predicate Allocated(live: set<nat>, old': set<nat>, next: nat, es: seq<Elem>) {
    && live == old' + IdSet(es) && Distinct(es)
    && forall i :: 0 <= i < |es| && es[i].ptr.Block? ==> next <= es[i].ptr.id
  }

  lemma AllocatedStep(live: set<nat>, before: set<nat>, old': set<nat>, next: nat, mid: nat, es: seq<Elem>, e: Elem)
    requires Allocated(before, old', next, es) && next <= mid
    requires forall b :: b in before ==> b < mid
    requires live == before + IdOf(e.ptr) && (e.ptr.Block? ==> mid <= e.ptr.id)
    ensures Allocated(live, old', next, es + [e])
  {
    IdSetStep(es, e);
    assert forall i :: 0 <= i < |es| && es[i].ptr.Block? ==> es[i].ptr.id in IdSet(es);
  }

  /** A list_binary_1_t: the block of its element array, and the elements. */
  datatype List = List(arr: Ptr, elems: seq<Elem>)

  ghost function Ids(l: List): set<nat> {
    IdOf(l.arr) + IdSet(l.elems)
  }

  /** The blocks of a list: no two the same, all numbered from `lo` up to `hi`. */
  ghost predicate Fresh(l: List, lo: nat, hi: nat) {
    && Distinct(l.elems)
    && (l.arr.Block? ==> l.arr.id !in IdSet(l.elems))
    && forall b :: b in Ids(l) ==> lo <= b < hi
  }

  /**
   A list read: the status is clean iff it was, the list is complete and no allocation is missing; the
   elements are then those of the list.  The allocations are numbered from `n` to `next`.
   */
  ghost predicate ListRead(want: Option<Got<seq<Blob>>>, fails: nat -> bool, n: nat, next: nat, wasOk: bool,
                           ok: bool, short: bool, l: List, end: nat)
  {
    && (!wasOk ==> !short)
    && (wasOk && want.Some? ==>
          && next == n + 1 + |want.value.value|
          && (short <==> Starved(fails, n + 1, want.value.value)))
    && ok == (wasOk && want.Some? && !short)
    && (ok ==> want == Some(Got(Datas(l.elems), end)) && AllLoaded(l.elems))
  }

  /** read_list_binary_1_t_struct; an element array of non-zero size is taken to be allocated. */
  method ReadList(codec: Codec, heap: Heap) returns (l: List, ghost short: bool)
    requires codec.Valid() && heap.Valid()
    modifies codec`pos, codec`ok, heap
    ensures codec.Valid() && heap.Valid() && heap.next >= old(heap.next)
    ensures ListRead(ListAt(codec.buf, old(codec.pos)), heap.fails, old(heap.next), heap.next, old(codec.ok), codec.ok,
                     short, l, codec.pos)
    ensures heap.live == old(heap.live) + Ids(l) && Fresh(l, old(heap.next), heap.next)
    ensures short ==> Failed(heap.fails, old(heap.next), heap.next)
  {
    var count := codec.StartReadList();
    var arr := heap.Malloc(count == 0);
    ghost var live, mid := heap.live, heap.next;
    var es;
    es, short := ReadElements(codec, heap, count);
    l := List(arr, es);
    assert forall b :: b in IdSet(es) ==> mid <= b;
    assert forall b :: b in Ids(l) ==> b in heap.live;
  }

  /** free_list_binary_1_t_struct: after it only `base` is allocated. */
  method FreeList(heap: Heap, l: List, ghost base: set<nat>)
    requires heap.Valid() && heap.live == base + Ids(l) && base !! Ids(l)
    requires Distinct(l.elems) && (l.arr.Block? ==> l.arr.id !in IdSet(l.elems))
    modifies heap`live
    ensures heap.Valid() && heap.live == base
  {
    var es := l.elems;
    for i := 0 to |es|
      invariant heap.Valid()
      invariant heap.live == base + IdOf(l.arr) + IdSet(es[i..])
    {
      IdSetFirst(es, i);
      if es[i].ptr.Block? {
        heap.Free(es[i].ptr.id);
      }
    }
    if l.arr.Block? {
      heap.Free(l.arr.id);
    }
  }

  lemma IdSetFirst(es: seq<Elem>, i: nat)
    requires i < |es| && Distinct(es)
    ensures IdSet(es[i..]) == IdOf(es[i].ptr) + IdSet(es[i + 1..])
    ensures es[i].ptr.Block? ==> es[i].ptr.id !in IdSet(es[i + 1..])
    ensures IdSet(es[i..]) <= IdSet(es)
  {
    assert es[i..] == [es[i]] + es[i + 1..];
    assert forall x :: x in es[i..] <==> x == es[i] || x in es[i + 1..];
  }

  // ----- The wrapper -----

  /** erpc_psa_call of the server: the vectors in fixed arrays, the lengths copied back. */
  method ErpcPsaCall(service: Service, h: int, t: int, ins: seq<Elem>, outs: seq<Elem>, maxIovec: nat)
    returns (status: int, outs': seq<Elem>)
    requires WellBehaved(service) && AllLoaded(ins) && AllLoaded(outs)
    requires |ins| <= maxIovec && |outs| <= maxIovec
    ensures var r := service(h, t, Datas(ins), Datas(outs));
            && status == r.status && |outs'| == |outs|
            && forall i :: 0 <= i < |outs| ==> outs'[i] == Elem(outs[i].ptr, r.outs[i].data, r.outs[i].len)
  {
    var inVec, outVec := new Blob[maxIovec](_ => []), new Blob[maxIovec](_ => []);
    for i := 0 to |ins|
      invariant forall j :: 0 <= j < i ==> inVec[j] == ins[j].data
    {
      inVec[i] := ins[i].data[..ins[i].len];
      assert ins[i].data[..ins[i].len] == ins[i].data;
    }
    for i := 0 to |outs|
      invariant forall j :: 0 <= j < i ==> outVec[j] == outs[j].data
      invariant forall j :: 0 <= j < |ins| ==> inVec[j] == ins[j].data
    {
      outVec[i] := outs[i].data[..outs[i].len];
      assert outs[i].data[..outs[i].len] == outs[i].data;
    }
    assert inVec[..|ins|] == Datas(ins) && outVec[..|outs|] == Datas(outs);
    var r := service(h, t, inVec[..|ins|], outVec[..|outs|]);
    assert Conforms(r, Datas(outs));
    outs' := outs;
    for i := 0 to |outs|
      invariant |outs'| == |outs|
      invariant forall j :: 0 <= j < i ==> outs'[j] == Elem(outs[j].ptr, r.outs[j].data, r.outs[j].len)
      invariant forall j :: i <= j < |outs| ==> outs'[j] == outs[j]
    {
      outs' := outs'[i := Elem(outs'[i].ptr, r.outs[i].data, r.outs[i].len)];
    }
    status := r.status;
  }

  // ----- The shim -----

  datatype Request = Request(handle: int, t: int, ins: seq<Blob>, outs: seq<Blob>)

  datatype Lists = Lists(ins: seq<Blob>, outs: seq<Blob>)

  function NumbersIn(msg: seq<byte>): Option<Got<(int, int)>> {
    var w := WordAt(msg, 0);
    if w.None? then None
    else
      var v := WordAt(msg, w.value.pos);
      if v.None? then None else Some(Got((Signed(w.value.value), Signed(v.value.value)), v.value.pos))
  }

  function ListsAt(msg: seq<byte>, pos: nat): Option<Lists> {
    var ins := ListAt(msg, pos);
    if ins.None? then None
    else
      var outs := ListAt(msg, ins.value.pos);
      if outs.None? then None else Some(Lists(ins.value.value, outs.value.value))
  }

  /** The request a message holds, if it is complete. */
  function RequestIn(msg: seq<byte>): Option<Request> {
    var n := NumbersIn(msg);
    if n.None? then None
    else
      var l := ListsAt(msg, n.value.pos);
      if l.None? then None else Some(Request(n.value.value.0, n.value.value.1, l.value.ins, l.value.outs))
  }

  /**
   An allocation that the request needs fails.  They are numbered from `n`: two list headers, then for
   each list its element array and its elements.
   */
  ghost predicate StarvedRequest(fails: nat -> bool, n: nat, q: Request) {
    fails(n) || fails(n + 1) || StarvedLists(fails, n + 2, Lists(q.ins, q.outs))
  }

  ghost predicate StarvedLists(fails: nat -> bool, n: nat, l: Lists) {
    Starved(fails, n + 1, l.ins) || Starved(fails, n + 2 + |l.ins|, l.outs)
  }

  /** Everything the shim has allocated while reading a request. */
  datatype Loaded = Loaded(inHdr: Ptr, outHdr: Ptr, ins: List, outs: List)

  ghost predicate Disjoint(x: Loaded) {
    && IdOf(x.inHdr) !! IdOf(x.outHdr) !! Ids(x.ins) !! Ids(x.outs)
    && Distinct(x.ins.elems) && (x.ins.arr.Block? ==> x.ins.arr.id !in IdSet(x.ins.elems))
    && Distinct(x.outs.elems) && (x.outs.arr.Block? ==> x.outs.arr.id !in IdSet(x.outs.elems))
  }

  /** Without a header block there is no list. */
  predicate Headed(x: Loaded) {
    && (x.inHdr.Null? ==> x.ins == List(Null, []))
    && (x.outHdr.Null? ==> x.outs == List(Null, []))
  }

  ghost function AllIds(x: Loaded): set<nat> {
    IdOf(x.inHdr) + IdOf(x.outHdr) + Ids(x.ins) + Ids(x.outs)
  }

  /** A list is read only when its header was allocated. */
  method ReadUnder(codec: Codec, heap: Heap, hdr: Ptr) returns (l: List, ghost short: bool)
    requires codec.Valid() && heap.Valid() && (hdr.Null? ==> !codec.ok)
    modifies codec`pos, codec`ok, heap
    ensures codec.Valid() && heap.Valid() && heap.next >= old(heap.next)
    ensures ListRead(ListAt(codec.buf, old(codec.pos)), heap.fails, old(heap.next), heap.next, old(codec.ok), codec.ok,
                     short, l, codec.pos)
    ensures heap.live == old(heap.live) + Ids(l) && Fresh(l, old(heap.next), heap.next)
    ensures hdr.Null? ==> l == List(Null, [])
    ensures short ==> Failed(heap.fails, old(heap.next), heap.next)
  {
    if hdr.Null? {
      l, short := List(Null, []), false;
    } else {
      l, short := ReadList(codec, heap);
    }
  }

  /** Both lists read: status, contents, and whether an allocation was missing. */
  ghost predicate ListsRead(want: Option<Lists>, fails: nat -> bool, n: nat, wasOk: bool,
                            ok: bool, short: bool, ins: List, outs: List)
  {
    && (!wasOk ==> !short)
    && (wasOk && want.Some? ==> (short <==> StarvedLists(fails, n, want.value)))
    && ok == (wasOk && want.Some? && !short)
    && (ok ==> && AllLoaded(ins.elems) && AllLoaded(outs.elems)
               && want == Some(Lists(Datas(ins.elems), Datas(outs.elems))))
  }

  /** The blocks of both lists: new, all different, and none where there is no header. */
  ghost predicate ListsOwned(before: set<nat>, live: set<nat>, lo: nat, hi: nat,
                             inHdr: Ptr, outHdr: Ptr, ins: List, outs: List)
  {
    && live == before + Ids(ins) + Ids(outs) && lo <= hi
    && Fresh(ins, lo, hi) && Fresh(outs, lo, hi) && Ids(ins) !! Ids(outs)
    && (inHdr.Null? ==> ins == List(Null, [])) && (outHdr.Null? ==> outs == List(Null, []))
  }

  method ReadLists(codec: Codec, heap: Heap, inHdr: Ptr, outHdr: Ptr)
    returns (ins: List, outs: List, ghost short: bool)
    requires codec.Valid() && heap.Valid() && (inHdr.Null? || outHdr.Null? ==> !codec.ok)
    modifies codec`pos, codec`ok, heap
    ensures codec.Valid() && heap.Valid()
    ensures ListsRead(ListsAt(codec.buf, old(codec.pos)), heap.fails, old(heap.next), old(codec.ok), codec.ok, short,
                      ins, outs)
    ensures ListsOwned(old(heap.live), heap.live, old(heap.next), heap.next, inHdr, outHdr, ins, outs)
    ensures short ==> Failed(heap.fails, old(heap.next), heap.next)
  {
    ghost var s, s', buf, p, n, live, wasOk := false, false, codec.buf, codec.pos, heap.next, heap.live, codec.ok;
    ins, s := ReadUnder(codec, heap, inHdr);
    ghost var mid, between, midLive, midOk := codec.pos, heap.next, heap.live, codec.ok;
    outs, s' := ReadUnder(codec, heap, outHdr);
    short := s || s';
    JoinRead(buf, p, mid, codec.pos, heap.fails, n, between, heap.next, wasOk, midOk, codec.ok, s, s', ins, outs);
    JoinOwned(live, midLive, heap.live, n, between, heap.next, inHdr, outHdr, ins, outs);
  }

  lemma JoinRead(buf: seq<byte>, p: nat, mid: nat, end: nat, fails: nat -> bool, n: nat, between: nat, next: nat,
                 wasOk: bool, midOk: bool, ok: bool, s: bool, s': bool, ins: List, outs: List)
    requires ListRead(ListAt(buf, p), fails, n, between, wasOk, midOk, s, ins, mid)
    requires ListRead(ListAt(buf, mid), fails, between, next, midOk, ok, s', outs, end)
    ensures ListsRead(ListsAt(buf, p), fails, n, wasOk, ok, s || s', ins, outs)
  {
  }

  lemma JoinOwned(before: set<nat>, between: set<nat>, live: set<nat>, lo: nat, mid: nat, hi: nat,
                  inHdr: Ptr, outHdr: Ptr, ins: List, outs: List)
    requires between == before + Ids(ins) && live == between + Ids(outs) && lo <= mid <= hi
    requires Fresh(ins, lo, mid) && Fresh(outs, mid, hi)
    requires (inHdr.Null? ==> ins == List(Null, [])) && (outHdr.Null? ==> outs == List(Null, []))
    ensures ListsOwned(before, live, lo, hi, inHdr, outHdr, ins, outs)
  {
  }

  method ReadNumbers(codec: Codec) returns (h: int, t: int)
    requires codec.Valid() && codec.pos == 0
    modifies codec`pos, codec`ok
    ensures codec.Valid() && codec.ok == (old(codec.ok) && NumbersIn(codec.buf).Some?)
    ensures codec.ok ==> NumbersIn(codec.buf) == Some(Got((h, t), codec.pos))
  {
    var w := codec.ReadWord();
    var v := codec.ReadWord();
    h, t := Signed(w), Signed(v);
  }

  /** The blocks of a request: new, all different, and none of the lists without its header. */
  ghost predicate Owned(before: set<nat>, live: set<nat>, x: Loaded) {
    live == before + AllIds(x) && before !! AllIds(x) && Disjoint(x) && Headed(x)
  }

  /** The status is clean iff the message holds a request and no allocation is missing. */
  ghost predicate RequestGot(want: Option<Request>, fails: nat -> bool, n: nat, ok: bool, short: bool,
                             h: int, t: int, ins: seq<Elem>, outs: seq<Elem>)
  {
    && ok == (want.Some? && !short)
    && (want.Some? ==> (short <==> StarvedRequest(fails, n, want.value)))
    && (ok ==> AllLoaded(ins) && AllLoaded(outs) && want == Some(Request(h, t, Datas(ins), Datas(outs))))
  }

  method ReadRequest(codec: Codec, heap: Heap) returns (x: Loaded, h: int, t: int, ghost short: bool)
    requires codec.Valid() && heap.Valid() && codec.pos == 0 && codec.ok
    modifies codec`pos, codec`ok, heap
    ensures codec.Valid() && heap.Valid()
    ensures RequestGot(RequestIn(codec.buf), heap.fails, old(heap.next), codec.ok, short, h, t,
                       x.ins.elems, x.outs.elems)
    ensures Owned(old(heap.live), heap.live, x)
    ensures short ==> Failed(heap.fails, old(heap.next), heap.next)
  {
    ghost var base, n := heap.live, heap.next;
    var inHdr, outHdr, ins, outs; ghost var headers, lists;
    inHdr, outHdr, headers := AllocHeaders(codec, heap);
    ghost var held := heap.live;
    h, t := ReadNumbers(codec);
    ghost var numbers, at := codec.ok, codec.pos;
    ins, outs, lists := ReadLists(codec, heap, inHdr, outHdr);
    short := headers || lists;
    x := Loaded(inHdr, outHdr, ins, outs);
    RequestRead(codec.buf, heap.fails, n, headers, numbers, h, t, at, codec.ok, lists, ins, outs);
    LoadedApart(x, base, held, heap.live, n, heap.next);
  }

  /** Headers, numbers and lists make up the request. */
  lemma RequestRead(msg: seq<byte>, fails: nat -> bool, n: nat, headers: bool, numbers: bool, h: int, t: int, at: nat,
                    ok: bool, lists: bool, ins: List, outs: List)
    requires (headers <==> fails(n) || fails(n + 1)) && numbers == (!headers && NumbersIn(msg).Some?)
    requires numbers ==> NumbersIn(msg) == Some(Got((h, t), at))
    requires ListsRead(ListsAt(msg, at), fails, n + 2, numbers, ok, lists, ins, outs)
    ensures RequestGot(RequestIn(msg), fails, n, ok, headers || lists, h, t, ins.elems, outs.elems)
  {
  }

  lemma LoadedApart(x: Loaded, base: set<nat>, held: set<nat>, live: set<nat>, n: nat, end: nat)
    requires forall b :: b in base ==> b < n
    requires IdOf(x.inHdr) <= {n} && IdOf(x.outHdr) <= {n + 1} && held == base + IdOf(x.inHdr) + IdOf(x.outHdr)
    requires ListsOwned(held, live, n + 2, end, x.inHdr, x.outHdr, x.ins, x.outs)
    ensures Owned(base, live, x)
  {
  }

  /** The two list headers, first thing in the shim. */
  method AllocHeaders(codec: Codec, heap: Heap) returns (inHdr: Ptr, outHdr: Ptr, ghost short: bool)
    requires codec.Valid() && heap.Valid() && codec.ok
    modifies codec`ok, heap
    ensures codec.Valid() && heap.Valid() && heap.next == old(heap.next) + 2
    ensures codec.ok == !short && short == (inHdr.Null? || outHdr.Null?)
    ensures short <==> heap.fails(old(heap.next)) || heap.fails(old(heap.next) + 1)
    ensures IdOf(inHdr) <= {old(heap.next)} && IdOf(outHdr) <= {old(heap.next) + 1}
    ensures heap.live == old(heap.live) + IdOf(inHdr) + IdOf(outHdr)
  {
    inHdr := heap.Malloc(true);
    if inHdr.Null? {
      codec.Fail();
    }
    outHdr := heap.Malloc(true);
    if outHdr.Null? {
      codec.Fail();
    }
    short := inHdr.Null? || outHdr.Null?;
  }

  /** The four frees at the end of the shim. */
  method FreeAll(heap: Heap, x: Loaded, ghost base: set<nat>)
    requires heap.Valid() && heap.live == base + AllIds(x) && base !! AllIds(x) && Disjoint(x)
    requires Headed(x)
    modifies heap`live
    ensures heap.Valid() && heap.live == base
  {
    assert Ids(List(Null, [])) == {};
    ghost var rest := base + IdOf(x.inHdr) + IdOf(x.outHdr) + Ids(x.outs);
    if x.inHdr.Block? {
      FreeList(heap, x.ins, rest);
    }
    assert heap.live == rest;
    if x.inHdr.Block? {
      heap.Free(x.inHdr.id);
    }
    ghost var rest' := base + IdOf(x.outHdr);
    assert heap.live == rest' + Ids(x.outs);
    if x.outHdr.Block? {
      FreeList(heap, x.outs, rest');
    }
    if x.outHdr.Block? {
      heap.Free(x.outHdr.id);
    }
  }

  ghost predicate Overruns(q: Request, maxIovec: nat) {
    |q.ins| > maxIovec || |q.outs| > maxIovec
  }

  function ReplyBytes(r: Reply): seq<byte>
    requires |r.outs| < 0x1_0000_0000
    requires forall i :: 0 <= i < |r.outs| ==> r.outs[i].len <= |r.outs[i].data|
  {
    EncodedList(Sent(r.outs)) + EncodedInt(r.status)
  }

  /** The blocks of the output list stay the same while the service fills them. */
  lemma FilledSame(x: Loaded, es: seq<Elem>)
    requires |es| == |x.outs.elems| && forall i :: 0 <= i < |es| ==> es[i].ptr == x.outs.elems[i].ptr
    ensures IdSet(es) == IdSet(x.outs.elems)
    ensures Distinct(x.outs.elems) ==> Distinct(es)
  {
    var os := x.outs.elems;
    forall b | b in IdSet(es) ensures b in IdSet(os) {
      var e :| e in es && e.ptr == Block(b);
      var i :| 0 <= i < |es| && es[i] == e;
      assert os[i] in os;
    }
    forall b | b in IdSet(os) ensures b in IdSet(es) {
      var e :| e in os && e.ptr == Block(b);
      var i :| 0 <= i < |os| && os[i] == e;
      assert es[i] in es;
    }
  }

  /** write_list_binary_1_t_struct over the elements, then the status */
  method WriteReply(codec: Codec, es: seq<Elem>, status: int, ghost r: Reply)
    requires codec.Valid() && codec.ok && codec.buf == []
    requires |es| == |r.outs| < 0x1_0000_0000 && status == r.status
    requires forall i :: 0 <= i < |es| ==>
               es[i].len == r.outs[i].len <= |r.outs[i].data| && es[i].data == r.outs[i].data
    modifies codec
    ensures codec.Valid() && codec.ok == (|ReplyBytes(r)| <= codec.capacity)
    ensures codec.ok ==> codec.buf == ReplyBytes(r)
  {
    var l := seq(|es|, i requires 0 <= i < |es| => es[i].data[..es[i].len]);
    assert l == Sent(r.outs);
    codec.WriteList(l);
    assert codec.ok ==> codec.buf == [] + EncodedList(l) == EncodedList(l);
    codec.Write(EncodedInt(status));
  }

  /**
   erpc_psa_call_shim.  `overrun` is where the source writes past the wrapper's fixed arrays;
   the model stops there.  `prepared` is the answer of prepareServerBufferForSend.
   */
  method Shim(codec: Codec, heap: Heap, service: Service, maxIovec: nat, prepared: bool)
    returns (good: bool, overrun: bool, invoked: bool, ghost short: bool)
    requires codec.Valid() && heap.Valid() && codec.pos == 0 && codec.ok
    requires WellBehaved(service) && maxIovec < 0x1_0000_0000
    modifies codec, heap
    ensures codec.Valid() && heap.Valid() && heap.live == old(heap.live)
    ensures short ==> Failed(heap.fails, old(heap.next), heap.next)
    ensures var q := RequestIn(old(codec.buf));
            && (q.Some? ==> (short <==> StarvedRequest(heap.fails, old(heap.next), q.value)))
            && (overrun <==> q.Some? && !short && Overruns(q.value, maxIovec))
            && (invoked <==> q.Some? && !short && !Overruns(q.value, maxIovec))
            && (good ==> invoked)
            && (invoked ==>
                  var r := service(q.value.handle, q.value.t, q.value.ins, q.value.outs);
                  && Conforms(r, q.value.outs)
                  && (good <==> prepared && |ReplyBytes(r)| <= codec.capacity)
                  && (good ==> codec.buf == ReplyBytes(r)))
  {
    ghost var msg, base := codec.buf, heap.live;
    var x, h, t;
    x, h, t, short := ReadRequest(codec, heap);
    good, overrun, invoked := false, false, false;
    if codec.ok {
      var q := Request(h, t, Datas(x.ins.elems), Datas(x.outs.elems));
      if |x.ins.elems| > maxIovec || |x.outs.elems| > maxIovec {
        overrun := true;
      } else {
        invoked := true;
        var status, es := ErpcPsaCall(service, h, t, x.ins.elems, x.outs.elems, maxIovec);
        ghost var r := service(h, t, q.ins, q.outs);
        assert Conforms(r, q.outs);
        FilledSame(x, es);
        x := x.(outs := x.outs.(elems := es));
        if prepared {
          codec.Reset();
          WriteReply(codec, es, status, r);
          good := codec.ok;
        }
      }
    }
    FreeAll(heap, x, base);
  }
}
