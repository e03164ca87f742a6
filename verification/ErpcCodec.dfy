/**
 The eRPC codec as the generated shims use it: a message buffer of limited size, a read
 position and a status that keeps its first error.  Numbers are little-endian words, a
 binary is a length and its bytes, a list of binaries is a count and the binaries.
 */
module ErpcCodec {
  import opened Common
  import opened Bytes

  // ----- Wire format -----

  type BlobList = l: seq<Blob> | |l| < 0x1_0000_0000

  function Blobs(l: seq<Blob>): seq<byte> {
    if l == [] then [] else Prefixed(l[0]) + Blobs(l[1..])
  }

  function EncodedList(l: BlobList): seq<byte> {
    LE32(|l|) + Blobs(l)
  }

  function EncodedInt(x: int): seq<byte> {
    LE32(Unsigned(x))
  }

  datatype Got<+T> = Got(value: T, pos: nat)

  function WordAt(buf: seq<byte>, pos: nat): Option<Got<UInt32>> {
    if pos + 4 <= |buf| then Some(Got(Word(buf[pos], buf[pos + 1], buf[pos + 2], buf[pos + 3]), pos + 4)) else None
  }

  function BlobAt(buf: seq<byte>, pos: nat): Option<Got<Blob>> {
    var w := WordAt(buf, pos);
    if w.None? then None
    else
      var end := w.value.pos + w.value.value;
      if end <= |buf| then Some(Got(buf[w.value.pos..end], end)) else None
  }

  function BlobsAt(buf: seq<byte>, pos: nat, count: nat): (r: Option<Got<seq<Blob>>>)
    ensures r.Some? ==> |r.value.value| == count
    decreases count
  {
    if count == 0 then Some(Got([], pos))
    else
      var b := BlobAt(buf, pos);
      if b.None? then None
      else
        var rest := BlobsAt(buf, b.value.pos, count - 1);
        if rest.None? then None else Some(Got([b.value.value] + rest.value.value, rest.value.pos))
  }

  function ListAt(buf: seq<byte>, pos: nat): Option<Got<seq<Blob>>> {
    var w := WordAt(buf, pos);
    if w.None? then None else BlobsAt(buf, w.value.pos, w.value.value)
  }

  /** `s` stands in the buffer at `pos`. */
  ghost predicate At(buf: seq<byte>, pos: nat, s: seq<byte>) {
    pos + |s| <= |buf| && buf[pos..pos + |s|] == s
  }

  lemma AtSplit(buf: seq<byte>, pos: nat, a: seq<byte>, b: seq<byte>)
    requires At(buf, pos, a + b)
    ensures At(buf, pos, a) && At(buf, pos + |a|, b)
  {
    var h := buf[pos..pos + |a + b|];
    assert buf[pos..pos + |a|] == h[..|a|] == a;
    assert buf[pos + |a|..pos + |a| + |b|] == h[|a|..] == b;
  }

  lemma WordBack(buf: seq<byte>, pos: nat, v: UInt32)
    requires At(buf, pos, LE32(v))
    ensures WordAt(buf, pos) == Some(Got(v, pos + 4))
  {
    WordLE32(v);
    var s := buf[pos..pos + 4];
    assert s[0] == buf[pos] && s[1] == buf[pos + 1] && s[2] == buf[pos + 2] && s[3] == buf[pos + 3];
  }

  lemma BlobBack(buf: seq<byte>, pos: nat, b: Blob)
    requires At(buf, pos, Prefixed(b))
    ensures BlobAt(buf, pos) == Some(Got(b, pos + |Prefixed(b)|))
  {
    AtSplit(buf, pos, LE32(|b|), b);
    WordBack(buf, pos, |b|);
  }

  lemma {:induction false} BlobsBack(buf: seq<byte>, pos: nat, l: seq<Blob>, end: nat)
    requires At(buf, pos, Blobs(l)) && end == pos + |Blobs(l)|
    ensures BlobsAt(buf, pos, |l|) == Some(Got(l, end))
    decreases |l|
  {
    if l != [] {
      var first, rest := Prefixed(l[0]), Blobs(l[1..]);
      var mid := pos + |first|;
      assert Blobs(l) == first + rest && end == mid + |rest|;
      AtSplit(buf, pos, first, rest);
      BlobBack(buf, pos, l[0]);
      BlobsBack(buf, mid, l[1..], end);
      BlobsAtFirst(buf, pos, l[0], mid, l[1..], end);
      assert [l[0]] + l[1..] == l;
    }
  }

  lemma BlobsAtFirst(buf: seq<byte>, pos: nat, b: Blob, mid: nat, l: seq<Blob>, end: nat)
    requires BlobAt(buf, pos) == Some(Got(b, mid)) && BlobsAt(buf, mid, |l|) == Some(Got(l, end))
    ensures BlobsAt(buf, pos, |l| + 1) == Some(Got([b] + l, end))
  {
  }

  /** A list is read back from its encoding, wherever it stands. */
  lemma ListBack(buf: seq<byte>, pos: nat, l: BlobList)
    requires At(buf, pos, EncodedList(l))
    ensures ListAt(buf, pos) == Some(Got(l, pos + |EncodedList(l)|))
  {
    AtSplit(buf, pos, LE32(|l|), Blobs(l));
    WordBack(buf, pos, |l|);
    BlobsBack(buf, pos + 4, l, pos + |EncodedList(l)|);
  }

  lemma IntBack(buf: seq<byte>, pos: nat, x: int)
    requires At(buf, pos, EncodedInt(x)) && -0x8000_0000 <= x < 0x8000_0000
    ensures WordAt(buf, pos).Some? && Signed(WordAt(buf, pos).value.value) == x && WordAt(buf, pos).value.pos == pos + 4
  {
    WordBack(buf, pos, Unsigned(x));
    SignedUnsigned(x);
  }

  // ----- The codec object -----

  class Codec {
    const capacity: nat
    var buf: seq<byte>
    var pos: nat
    var ok: bool

    ghost predicate Valid()
      reads this
    {
      pos <= |buf| <= capacity
    }

    constructor (capacity: nat, message: seq<byte>)
      requires |message| <= capacity
      ensures Valid() && this.capacity == capacity && buf == message && pos == 0 && ok
    {
      this.capacity := capacity;
      buf := message;
      pos := 0;
      ok := true;
    }

    /** Empty buffer, clean status. */
    method Reset()
      modifies this
      ensures Valid() && buf == [] && pos == 0 && ok
    {
      buf := [];
      pos := 0;
      ok := true;
    }

    /** A message arrives in the buffer. */
    method Receive(message: seq<byte>)
      requires |message| <= capacity
      modifies this`buf, this`pos
      ensures Valid() && buf == message && pos == 0
    {
      buf := message;
      pos := 0;
    }

    /** updateStatus with an error */
    method Fail()
      requires Valid()
      modifies this`ok
      ensures Valid() && !ok
    {
      ok := false;
    }

    method Write(d: seq<byte>)
      requires Valid()
      modifies this`buf, this`ok
      ensures Valid() && ok == (old(ok) && |old(buf)| + |d| <= capacity)
      ensures buf == if ok then old(buf) + d else old(buf)
    {
      if ok {
        if |buf| + |d| <= capacity {
          buf := buf + d;
        } else {
          ok := false;
        }
      }
    }

    method WriteBinary(b: Blob)
      requires Valid()
      modifies this`buf, this`ok
      ensures Valid() && ok == (old(ok) && |old(buf)| + |Prefixed(b)| <= capacity)
      ensures ok ==> buf == old(buf) + Prefixed(b)
    {
      Write(LE32(|b|));
      Write(b);
    }

    /** write_list_binary_1_t_struct */
    method WriteList(l: BlobList)
      requires Valid()
      modifies this`buf, this`ok
      ensures Valid() && ok == (old(ok) && |old(buf)| + |EncodedList(l)| <= capacity)
      ensures ok ==> buf == old(buf) + EncodedList(l)
    {
      Write(LE32(|l|));
      ghost var goal := old(buf) + EncodedList(l);
      assert l[0..] == l;
      assert ok ==> buf + Blobs(l) == goal;
      for i := 0 to |l|
        invariant Valid()
        invariant (ok && |buf| + |Blobs(l[i..])| <= capacity) == (old(ok) && |goal| <= capacity)
        invariant ok ==> buf + Blobs(l[i..]) == goal
      {
        ghost var rest := Blobs(l[i + 1..]);
        assert l[i..][1..] == l[i + 1..];
        assert ok ==> buf + (Prefixed(l[i]) + rest) == buf + Prefixed(l[i]) + rest;
        WriteBinary(l[i]);
      }
    }

    /** A word; what is left in the variable after an error is not looked at. */
    method ReadWord() returns (v: UInt32)
      requires Valid()
      modifies this`pos, this`ok
      ensures Valid() && ok == (old(ok) && WordAt(buf, old(pos)).Some?)
      ensures ok ==> WordAt(buf, old(pos)) == Some(Got(v, pos))
      ensures !ok ==> pos == old(pos)
    {
      v := 0;
      if ok {
        if pos + 4 <= |buf| {
          v := Word(buf[pos], buf[pos + 1], buf[pos + 2], buf[pos + 3]);
          pos := pos + 4;
        } else {
          ok := false;
        }
      }
    }

    /** startReadList: the count, 0 after an error */
    method StartReadList() returns (count: UInt32)
      requires Valid()
      modifies this`pos, this`ok
      ensures Valid() && ok == (old(ok) && WordAt(buf, old(pos)).Some?)
      ensures ok ==> WordAt(buf, old(pos)) == Some(Got(count, pos))
      ensures !ok ==> count == 0 && pos == old(pos)
    {
      count := ReadWord();
      if !ok {
        count := 0;
      }
    }

    /** readBinary: the bytes, none after an error */
    method ReadBinary() returns (b: Blob)
      requires Valid()
      modifies this`pos, this`ok
      ensures Valid() && ok == (old(ok) && BlobAt(buf, old(pos)).Some?)
      ensures ok ==> BlobAt(buf, old(pos)) == Some(Got(b, pos))
      ensures !ok ==> b == []
    {
      b := [];
      var len := ReadWord();
      if ok {
        if pos + len <= |buf| {
          b := buf[pos..pos + len];
          pos := pos + len;
        } else {
          ok := false;
        }
      }
    }
  }
}
