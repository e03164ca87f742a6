/**
 The client side of a remote psa_call and the whole round trip: wrapper, request, server,
 reply, wrapper (erpc/client/erpc_client_wrapper.c, erpc/generated_files/tfm_erpc_client.cpp).
 A remote call is compared with calling the service directly.
 */
module ErpcClient {
  import opened Common
  import opened Bytes
  import opened ErpcCodec
  import opened ErpcServer

  const PSA_ERROR_PROGRAMMER_ERROR: int := -129
  const ERPC_FAILED: int := -1

  /** The caller's output vectors: memory and length of each, updated in place. */
  class OutVec {
    var base: seq<Blob>
    var len: seq<nat>

    constructor (buffers: seq<Blob>)
      ensures base == buffers && Whole()
    {
      base := buffers;
      len := seq(|buffers|, i requires 0 <= i < |buffers| => |buffers[i]|);
    }

    /** Each length is that of the whole buffer, as before a call. */
    ghost predicate Whole()
      reads this
    {
      |len| == |base| && forall i :: 0 <= i < |base| ==> len[i] == |base[i]|
    }
  }

  // ----- Request -----

  function RequestBytes(q: Request): seq<byte>
    requires |q.ins| < 0x1_0000_0000 && |q.outs| < 0x1_0000_0000
  {
    EncodedInt(q.handle) + EncodedInt(q.t) + EncodedList(q.ins) + EncodedList(q.outs)
  }

  /** Where the parts of a request are. */
  lemma RequestParts(msg: seq<byte>, h: seq<byte>, t: seq<byte>, i: seq<byte>, o: seq<byte>)
    requires msg == h + t + i + o && |h| == |t| == 4
    ensures At(msg, 0, h) && At(msg, 4, t) && At(msg, 8, i) && At(msg, 8 + |i|, o)
  {
    assert msg[0..|msg|] == msg;
    AtSplit(msg, 0, h + t + i, o);
    AtSplit(msg, 0, h + t, i);
    AtSplit(msg, 0, h, t);
  }

  lemma RequestFrom(msg: seq<byte>, w: Got<UInt32>, v: Got<UInt32>, i: Got<seq<Blob>>, o: Got<seq<Blob>>)
    requires WordAt(msg, 0) == Some(w) && WordAt(msg, w.pos) == Some(v)
    requires ListAt(msg, v.pos) == Some(i) && ListAt(msg, i.pos) == Some(o)
    ensures RequestIn(msg) == Some(Request(Signed(w.value), Signed(v.value), i.value, o.value))
  {
  }

  /** The server reads back the request the client wrote. */
  lemma RequestBack(q: Request)
    requires |q.ins| < 0x1_0000_0000 && |q.outs| < 0x1_0000_0000
    requires -0x8000_0000 <= q.handle < 0x8000_0000 && -0x8000_0000 <= q.t < 0x8000_0000
    ensures RequestIn(RequestBytes(q)) == Some(q)
  {
    var msg := RequestBytes(q);
    var i := EncodedList(q.ins);
    RequestParts(msg, EncodedInt(q.handle), EncodedInt(q.t), i, EncodedList(q.outs));
    IntBack(msg, 0, q.handle);
    IntBack(msg, 4, q.t);
    ListBack(msg, 8, q.ins);
    ListBack(msg, 8 + |i|, q.outs);
    RequestFrom(msg, WordAt(msg, 0).value, WordAt(msg, 4).value, ListAt(msg, 8).value, ListAt(msg, 8 + |i|).value);
  }

  method WriteRequest(codec: Codec, q: Request)
    requires codec.Valid() && codec.ok && codec.buf == []
    requires |q.ins| < 0x1_0000_0000 && |q.outs| < 0x1_0000_0000
    modifies codec
    ensures codec.Valid() && codec.pos == old(codec.pos) && codec.ok == (|RequestBytes(q)| <= codec.capacity)
    ensures codec.ok ==> codec.buf == RequestBytes(q)
  {
    ghost var h, t, i, o := EncodedInt(q.handle), EncodedInt(q.t), EncodedList(q.ins), EncodedList(q.outs);
    assert |RequestBytes(q)| == |h| + |t| + |i| + |o|;
    codec.Write(EncodedInt(q.handle));
    assert codec.ok ==> codec.buf == h;
    codec.Write(EncodedInt(q.t));
    assert codec.ok ==> codec.buf == h + t;
    codec.WriteList(q.ins);
    assert codec.ok ==> codec.buf == h + t + i;
    codec.WriteList(q.outs);
  }

  // ----- Reply -----

  /** The first `n` bytes of a buffer replaced. */
  function Copied(buffer: Blob, b: Blob): Blob
    requires |b| <= |buffer|
  {
    b + buffer[|b|..]
  }

  /** What the reply `r` leaves in the buffers: the reported bytes in front, the rest untouched. */
  ghost predicate Received(base: seq<Blob>, before: seq<Blob>, r: Reply)
    requires Conforms(r, before)
  {
    && |base| == |before|
    && forall i :: 0 <= i < |base| ==> base[i] == r.outs[i].data[..r.outs[i].len] + before[i][r.outs[i].len..]
  }

  ghost function Lens(r: Reply): seq<nat> {
    seq(|r.outs|, i requires 0 <= i < |r.outs| => r.outs[i].len)
  }

  /** read_list_binary_1_t_struct of the client: into the caller's buffers, lengths beside. */
  method ReadOuts(codec: Codec, out: OutVec, ghost r: Reply) returns (lens: seq<nat>)
    requires codec.Valid() && codec.pos == 0 && |out.base| < 0x1_0000_0000
    requires codec.ok ==> Conforms(r, out.base) && codec.buf == ReplyBytes(r)
    modifies codec`pos, codec`ok, out`base
    ensures codec.Valid() && codec.ok == old(codec.ok)
    ensures !codec.ok ==> out.base == old(out.base)
    ensures codec.ok ==> && Received(out.base, old(out.base), r) && lens == Lens(r)
                         && At(codec.buf, codec.pos, EncodedInt(r.status))
  {
    if codec.ok {
      ReplyParts(codec.buf, r);
    }
    var count := codec.StartReadList();
    if count == 0 {
      lens := [];
      assert codec.ok ==> Blobs(Sent(r.outs)[0..]) + EncodedInt(r.status) == EncodedInt(r.status);
    } else {
      lens := ReadInto(codec, out, count, r);
    }
  }

  /** read_binary_t_struct of the client: the next binary, copied to the front of buffer `n`. */
  method ReadOut(codec: Codec, out: OutVec, n: nat, ghost l: seq<Blob>, ghost tail: seq<byte>) returns (len: nat)
    requires codec.Valid() && codec.ok && n < |l| && n < |out.base| && |l[n]| <= |out.base[n]|
    requires At(codec.buf, codec.pos, Blobs(l[n..]) + tail)
    modifies codec`pos, codec`ok, out`base
    ensures codec.Valid() && codec.ok && len == |l[n]|
    ensures out.base == old(out.base)[n := Copied(old(out.base)[n], l[n])]
    ensures At(codec.buf, codec.pos, Blobs(l[n + 1..]) + tail)
  {
    NextBlob(codec.buf, codec.pos, l, n, tail);
    var b := codec.ReadBinary();
    out.base := out.base[n := Copied(out.base[n], b)];
    len := |b|;
  }

  /** The elements of the list, each copied to the front of its buffer. */
  method ReadInto(codec: Codec, out: OutVec, count: nat, ghost r: Reply) returns (lens: seq<nat>)
    requires codec.Valid() && codec.ok && count == |r.outs| && Conforms(r, out.base)
    requires At(codec.buf, codec.pos, Blobs(Sent(r.outs)[0..]) + EncodedInt(r.status))
    modifies codec`pos, codec`ok, out`base
    ensures codec.Valid() && codec.ok
    ensures Received(out.base, old(out.base), r) && lens == Lens(r)
    ensures At(codec.buf, codec.pos, EncodedInt(r.status))
  {
    lens := [];
    ghost var sent, before, goal := Sent(r.outs), out.base, Lens(r);
    for n := 0 to count
      invariant codec.Valid() && codec.ok && |out.base| == count
      invariant At(codec.buf, codec.pos, Blobs(sent[n..]) + EncodedInt(r.status))
      invariant lens == goal[..n]
      invariant Copying(out.base, before, sent, n)
    {
      CopyingStep(out.base, before, sent, n);
      assert goal[..n] + [|sent[n]|] == goal[..n + 1];
      var len := ReadOut(codec, out, n, sent, EncodedInt(r.status));
      lens := lens + [len];
    }
    assert Blobs(sent[count..]) + EncodedInt(r.status) == EncodedInt(r.status);
  }

  /** Each part fits its buffer. */
  ghost predicate Fitting(before: seq<Blob>, sent: seq<Blob>) {
    |sent| == |before| && forall i :: 0 <= i < |sent| ==> |sent[i]| <= |before[i]|
  }

  /** The first `n` buffers have received their bytes, the others are as before. */
  ghost predicate Copying(base: seq<Blob>, before: seq<Blob>, sent: seq<Blob>, n: nat)
    requires n <= |before|
  {
    && Fitting(before, sent) && |base| == |before|
    && (forall i :: 0 <= i < n ==> base[i] == Copied(before[i], sent[i]))
    && (forall i :: n <= i < |base| ==> base[i] == before[i])
  }

  lemma CopyingStep(base: seq<Blob>, before: seq<Blob>, sent: seq<Blob>, n: nat)
    requires n < |before| && Copying(base, before, sent, n)
    ensures n < |base| == |sent| && |sent[n]| <= |base[n]|
    ensures Copying(base[n := Copied(base[n], sent[n])], before, sent, n + 1)
  {
  }

  lemma ReplyParts(buf: seq<byte>, r: Reply)
    requires |r.outs| < 0x1_0000_0000
    requires forall i :: 0 <= i < |r.outs| ==> r.outs[i].len <= |r.outs[i].data|
    requires buf == ReplyBytes(r)
    ensures WordAt(buf, 0) == Some(Got(|r.outs|, 4))
    ensures At(buf, 4, Blobs(Sent(r.outs)[0..]) + EncodedInt(r.status))
  {
    var l := Sent(r.outs);
    assert l[0..] == l;
    var tail := Blobs(l) + EncodedInt(r.status);
    assert buf == LE32(|l|) + tail && buf[0..|buf|] == buf;
    AtSplit(buf, 0, LE32(|l|), tail);
    WordBack(buf, 0, |l|);
  }

  lemma NextBlob(buf: seq<byte>, pos: nat, l: seq<Blob>, n: nat, end: seq<byte>)
    requires n < |l| && At(buf, pos, Blobs(l[n..]) + end)
    ensures BlobAt(buf, pos) == Some(Got(l[n], pos + |Prefixed(l[n])|))
    ensures At(buf, pos + |Prefixed(l[n])|, Blobs(l[n + 1..]) + end)
  {
    assert l[n..][1..] == l[n + 1..];
    assert Blobs(l[n..]) + end == Prefixed(l[n]) + (Blobs(l[n + 1..]) + end);
    AtSplit(buf, pos, Prefixed(l[n]), Blobs(l[n + 1..]) + end);
    BlobBack(buf, pos, l[n]);
  }

  // ----- The whole call -----

  /** The far end: its service, heap and limits, and whether it gets a buffer for its reply. */
  datatype Server = Server(service: Service, heap: Heap, maxIovec: nat, capacity: nat, prepared: bool)

  ghost predicate ServerOk(s: Server)
    reads s.heap
  {
    s.heap.Valid() && WellBehaved(s.service) && s.maxIovec < 0x1_0000_0000
  }

  function Answer(s: Server, q: Request): Reply {
    s.service(q.handle, q.t, q.ins, q.outs)
  }

  ghost predicate ValidRequest(q: Request) {
    && |q.ins| < 0x1_0000_0000 && |q.outs| < 0x1_0000_0000
    && -0x8000_0000 <= q.handle < 0x8000_0000 && -0x8000_0000 <= q.t < 0x8000_0000
  }

  /** Request and reply fit every buffer they pass through, and the server can send. */
  ghost predicate Passes(s: Server, q: Request, capacity: nat)
    requires ValidRequest(q) && Conforms(Answer(s, q), q.outs)
  {
    && |RequestBytes(q)| <= capacity && |RequestBytes(q)| <= s.capacity
    && |ReplyBytes(Answer(s, q))| <= capacity && |ReplyBytes(Answer(s, q))| <= s.capacity
    && s.prepared && !Overruns(q, s.maxIovec)
  }

  /** performRequest: the message goes over, the server's shim runs, the reply comes back or an error is noted. */
  method PerformRequest(codec: Codec, s: Server, ghost q: Request) returns (ghost short: bool)
    requires codec.Valid() && codec.pos == 0 && ServerOk(s) && ValidRequest(q)
    requires codec.ok == (|RequestBytes(q)| <= codec.capacity) && (codec.ok ==> codec.buf == RequestBytes(q))
    modifies codec, s.heap
    ensures Conforms(Answer(s, q), q.outs)
    ensures codec.Valid() && codec.pos == 0 && ServerOk(s) && s.heap.live == old(s.heap.live)
    ensures codec.ok == (Passes(s, q, codec.capacity) && !short)
    ensures Passes(s, q, codec.capacity) ==> (short <==> StarvedRequest(s.heap.fails, old(s.heap.next), q))
    ensures codec.ok ==> codec.buf == ReplyBytes(Answer(s, q))
    ensures short ==> Failed(s.heap.fails, old(s.heap.next), s.heap.next)
  {
    short := false;
    assert Conforms(Answer(s, q), q.outs);
    RequestBack(q);
    if codec.ok {
      if |codec.buf| <= s.capacity {
        var far := new Codec(s.capacity, codec.buf);
        var good, overrun, invoked;
        good, overrun, invoked, short := Shim(far, s.heap, s.service, s.maxIovec, s.prepared);
        if good && |far.buf| <= codec.capacity {
          codec.Receive(far.buf);
        } else {
          codec.Fail();
        }
      } else {
        codec.Fail();
      }
    }
  }

  /**
   erpc_psa_call of the client; without a clean codec status the result is -1.  `created` tells
   that the client manager had a codec for the request.
   */
  method ErpcPsaCallClient(s: Server, q: Request, out: OutVec, capacity: nat, created: bool)
    returns (status: int, lens: seq<nat>, ghost done: bool, ghost short: bool)
    requires ServerOk(s) && ValidRequest(q) && q.outs == out.base
    modifies s.heap, out`base
    ensures Conforms(Answer(s, q), q.outs)
    ensures ServerOk(s) && s.heap.live == old(s.heap.live)
    ensures done == (created && Passes(s, q, capacity) && !short)
    ensures done == (created && Passes(s, q, capacity) && !StarvedRequest(s.heap.fails, old(s.heap.next), q))
    ensures done ==> status == Answer(s, q).status && lens == Lens(Answer(s, q))
    ensures done ==> Received(out.base, q.outs, Answer(s, q))
    ensures !done ==> status == ERPC_FAILED && out.base == q.outs
    ensures short ==> Failed(s.heap.fails, old(s.heap.next), s.heap.next)
  {
    assert Conforms(Answer(s, q), q.outs);
    if !created {
      return ERPC_FAILED, [], false, false;
    }
    var codec := new Codec(capacity, []);
    WriteRequest(codec, q);
    short := PerformRequest(codec, s, q);
    ghost var r := Answer(s, q);
    done := codec.ok;
    lens := ReadOuts(codec, out, r);
    if codec.ok {
      IntBack(codec.buf, codec.pos, r.status);
    }
    var w := codec.ReadWord();
    status := if codec.ok then Signed(w) else ERPC_FAILED;
  }

  /** One of the loops that fill a fixed array of PSA_MAX_IOVEC elements from a vector. */
  method CopyVector(v: seq<Blob>, maxIovec: nat) returns (elements: array<Blob>)
    requires |v| <= maxIovec
    ensures fresh(elements) && elements.Length == maxIovec && elements[..|v|] == v
  {
    elements := new Blob[maxIovec](_ => []);
    for i := 0 to |v|
      invariant elements[..i] == v[..i]
    {
      elements[i] := v[i];
    }
  }

  /**
   psa_call on the client.  When request and reply get through, the caller sees what a local
   call of the service would have given: the same status and, on success, the same lengths and
   the same bytes up to each length.  Bytes behind a length are never touched; on any other
   status the lengths stay as they were.
   */
  method PsaCall(
    s: Server, handle: int, t: int, ins: seq<Blob>, out: OutVec, maxIovec: nat, capacity: nat, created: bool)
    returns (status: int, ghost done: bool, ghost short: bool)
    requires ServerOk(s) && maxIovec <= s.maxIovec
    requires -0x8000_0000 <= handle < 0x8000_0000 && -0x8000_0000 <= t < 0x8000_0000
    requires out.Whole()
    modifies s.heap, out
    ensures ServerOk(s) && s.heap.live == old(s.heap.live)
    ensures |ins| + |old(out.base)| > maxIovec ==>
              status == -129 && !done && out.base == old(out.base) && out.len == old(out.len)
    ensures |ins| + |old(out.base)| <= maxIovec ==>
              var q := Request(handle, t, ins, old(out.base));
              var local := Answer(s, q);
              && ValidRequest(q) && Conforms(local, q.outs) && !Overruns(q, s.maxIovec)
              && done == (created && Passes(s, q, capacity) && !short)
              && done == (created && Passes(s, q, capacity) &&
                          !StarvedRequest(s.heap.fails, old(s.heap.next), q))
              && (done ==> && status == local.status
                           && Received(out.base, old(out.base), local)
                           && out.len == if status == PSA_SUCCESS then Lens(local) else old(out.len))
              && (!done ==> status == -1 && out.base == old(out.base) && out.len == old(out.len))
    ensures short ==> Failed(s.heap.fails, old(s.heap.next), s.heap.next)
  {
    done, short := false, false;
    if |ins| + |out.base| > maxIovec {
      return PSA_ERROR_PROGRAMMER_ERROR, done, short;
    }
    var inElements := CopyVector(ins, maxIovec);
    var outElements := CopyVector(out.base, maxIovec);
    var q := Request(handle, t, inElements[..|ins|], outElements[..|out.base|]);
    assert q == Request(handle, t, ins, out.base);
    var lens;
    status, lens, done, short := ErpcPsaCallClient(s, q, out, capacity, created);
    if status != PSA_SUCCESS {
      return;
    }
    assert done;
    out.len := lens;
  }
}
