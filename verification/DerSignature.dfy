/**
 parse_signature_from_rfc5480_encoding: the DER form of an ECDSA signature, a SEQUENCE of
 two INTEGERs, turned into r and s of fixed width.  The parser gets a pointer and a
 length, but some of its tests look at bytes behind that length; memory is therefore
 modelled as readable at every offset, and locality is a theorem with a condition.
 */
module DerSignature {
  import opened Bytes

  // ----- The parser -----

  /** The content of an INTEGER that is copied: where it starts and how many bytes. */
  datatype Span = Span(start: nat, len: nat)

  /** A leading zero before a byte with the top bit is dropped; the length is a size_t and wraps. */
  function Trim(mem: Memory, at: nat, len: nat): Span {
    if mem(at + 1) >= 0x80 && mem(at) == 0 then Span(at + 1, if len == 0 then SIZE_MAX else len - 1)
    else Span(at, len)
  }

  datatype Parsed = Rejected | Accepted(rs: seq<byte>)

  /** `r` right-aligned in the first half, `s` right-aligned at the end. */
  function Layout(r: seq<byte>, s: seq<byte>, width: nat): (rs: seq<byte>)
    requires |r| <= width / 2 && |s| <= width / 2
    ensures |rs| == width
  {
    Zeros(width / 2 - |r|) + r + Zeros(width - width / 2 - |s|) + s
  }

  predicate HeaderOk(mem: Memory, n: nat) {
    && mem(0) == 0x30 && mem(1) < 0x80 && n >= 2 && mem(1) == n - 2
    && mem(2) == 0x02 && mem(3) < 0x80
  }

  function Second(mem: Memory, n: nat, width: nat, at: nat, first: seq<byte>): Parsed
    requires width <= SIZE_MAX && |first| <= width / 2
  {
    if mem(at) != 0x02 || mem(at + 1) >= 0x80 then Rejected
    else
      var s := Trim(mem, at + 2, mem(at + 1));
      if s.len > width / 2 || s.start + s.len != n then Rejected
      else Accepted(Layout(first, Read(mem, s.start, s.len), width))
  }

  function Parse(mem: Memory, n: nat, width: nat): Parsed
    requires width <= SIZE_MAX
  {
    if !HeaderOk(mem, n) then Rejected
    else
      var r := Trim(mem, 4, mem(3));
      if r.len > width / 2 then Rejected
      else if 4 + mem(3) == n then Accepted(Layout(Read(mem, r.start, r.len), [], width))
      else Second(mem, n, width, 4 + mem(3), Read(mem, r.start, r.len))
  }

  method MemSetZero(a: array<byte>)
    modifies a
    ensures a[..] == Zeros(a.Length)
  {
    for i := 0 to a.Length
      invariant forall j :: 0 <= j < i ==> a[j] == 0
    {
      a[i] := 0;
    }
  }

  method MemCpy(a: array<byte>, at: nat, mem: Memory, from: nat, len: nat)
    requires at + len <= a.Length
    modifies a
    ensures a[..] == old(a[..at]) + Read(mem, from, len) + old(a[at + len..])
  {
    for i := 0 to len
      invariant forall j :: 0 <= j < at ==> a[j] == old(a[j])
      invariant forall j :: at <= j < at + i ==> a[j] == Read(mem, from, len)[j - at]
      invariant forall j :: at + i <= j < a.Length ==> a[j] == old(a[j])
    {
      a[at + i] := mem(from + i);
    }
  }

  method ParseSignature(sig: Memory, n: nat, rs: array<byte>) returns (ok: bool)
    requires rs.Length <= SIZE_MAX
    modifies rs
    ensures match Parse(sig, n, rs.Length)
            case Rejected => !ok
            case Accepted(out) => ok && rs[..] == out
  {
    if sig(0) != 0x30 {
      return false;
    }
    if sig(1) >= 0x80 {
      return false;
    }
    if n < 2 || sig(1) != n - 2 {
      return false;
    }
    if sig(2) != 0x02 {
      return false;
    }
    if sig(3) >= 0x80 {
      return false;
    }
    MemSetZero(rs);

    var half := rs.Length / 2;
    var r := Trim(sig, 4, sig(3));
    if r.len > half {
      return false;
    }
    MemCpy(rs, half - r.len, sig, r.start, r.len);
    ghost var first := Read(sig, r.start, r.len);
    assert rs[..] == Zeros(half - r.len) + first + Zeros(rs.Length - half);
    if 4 + sig(3) == n {
      assert Layout(first, [], rs.Length) == Zeros(half - r.len) + first + Zeros(rs.Length - half);
      return true;
    }

    ok := ParseSecond(sig, n, rs, 4 + sig(3), first);
  }

  /** The second integer: tag and length at `at`, bytes to the end of a buffer whose rest stays. */
  method ParseSecond(sig: Memory, n: nat, rs: array<byte>, at: nat, ghost first: seq<byte>) returns (ok: bool)
    requires rs.Length <= SIZE_MAX && |first| <= rs.Length / 2
    requires rs[..] == Zeros(rs.Length / 2 - |first|) + first + Zeros(rs.Length - rs.Length / 2)
    modifies rs
    ensures match Second(sig, n, rs.Length, at, first)
            case Rejected => !ok
            case Accepted(out) => ok && rs[..] == out
  {
    if sig(at) != 0x02 {
      return false;
    }
    if sig(at + 1) >= 0x80 {
      return false;
    }
    var s := Trim(sig, at + 2, sig(at + 1));
    if s.len > rs.Length / 2 {
      return false;
    }
    if s.start + s.len != n {
      return false;
    }
    MemCpy(rs, rs.Length - s.len, sig, s.start, s.len);
    assert rs[..] == Layout(first, Read(sig, s.start, s.len), rs.Length);
    return true;
  }

  // ----- Soundness and completeness -----

  /** A SEQUENCE of two INTEGERs in short form. */
  function Encoded(r: seq<byte>, s: seq<byte>): (sig: seq<byte>)
    requires |r| + |s| + 4 < 0x80
    ensures |sig| == |r| + |s| + 6
  {
    [0x30, |r| + |s| + 4, 0x02, |r|] + r + [0x02, |s|] + s
  }

  /** The integer content without a redundant leading zero. */
  function Trimmed(r: seq<byte>): seq<byte> {
    if |r| >= 2 && r[0] == 0 && r[1] >= 0x80 then r[1..] else r
  }

  /** What trimming in memory amounts to when the whole integer is there. */
  lemma TrimMeaning(mem: Memory, at: nat, r: seq<byte>)
    requires Holds(mem, at, r) && r != []
    requires |r| == 1 ==> mem(at + 1) < 0x80 || r != [0]
    ensures var t := Trim(mem, at, |r|);
            t.len == |Trimmed(r)| && Read(mem, t.start, t.len) == Trimmed(r) && t.start + t.len == at + |r|
  {
    assert mem(at) == mem(at + 0) == r[0];
    if |r| >= 2 {
      assert mem(at + 1) == r[1];
      var t := Trim(mem, at, |r|);
      var k := t.start - at;
      forall i | 0 <= i < t.len ensures Read(mem, t.start, t.len)[i] == Trimmed(r)[i] {
        assert mem(at + (k + i)) == r[k + i];
      }
    }
  }

  /** Where the parts of an encoding stand. */
  lemma EncodedAt(mem: Memory, r: seq<byte>, s: seq<byte>)
    requires |r| + |s| + 4 < 0x80 && Holds(mem, 0, Encoded(r, s))
    ensures mem(0) == 0x30 && mem(1) == |r| + |s| + 4 && mem(2) == 0x02 && mem(3) == |r|
    ensures mem(4 + |r|) == 0x02 && mem(5 + |r|) == |s|
    ensures Holds(mem, 4, r) && Holds(mem, 6 + |r|, s)
  {
    var e := Encoded(r, s);
    assert forall i :: 0 <= i < |e| ==> mem(0 + i) == mem(i) == e[i];
    assert forall i :: 0 <= i < |r| ==> e[4 + i] == r[i];
    assert forall i :: 0 <= i < |s| ==> e[6 + |r| + i] == s[i];
  }

  /** The parser on two non-empty integers: both in range, and then the trimmed bytes, right-aligned. */
  lemma ParseEncoded(mem: Memory, r: seq<byte>, s: seq<byte>, width: nat)
    requires 2 <= width <= SIZE_MAX
    requires r != [] && s != [] && |r| + |s| + 4 < 0x80
    requires Holds(mem, 0, Encoded(r, s))
    ensures Parse(mem, |Encoded(r, s)|, width) ==
            if |Trimmed(r)| <= width / 2 && |Trimmed(s)| <= width / 2
            then Accepted(Layout(Trimmed(r), Trimmed(s), width)) else Rejected
  {
    EncodedAt(mem, r, s);
    TrimMeaning(mem, 4, r);
    if s == [0] && mem(7 + |r|) >= 0x80 {
      // The byte behind the signature makes the parser drop the only byte, which is zero anyway.
      assert mem(6 + |r| + 0) == s[0];
      if |Trimmed(r)| <= width / 2 {
        LayoutZero(Trimmed(r), width);
      }
    } else {
      TrimMeaning(mem, 6 + |r|, s);
    }
  }

  lemma BETrimmed(r: seq<byte>)
    ensures BE(Trimmed(r)) == BE(r)
  {
    if Trimmed(r) != r {
      assert r == Zeros(1) + r[1..];
      BEPadded(1, r[1..]);
    }
  }

  lemma LayoutHalves(r: seq<byte>, s: seq<byte>, width: nat)
    requires |r| <= width / 2 && |s| <= width / 2
    ensures var rs := Layout(r, s, width);
            BE(rs[..width / 2]) == BE(r) && BE(rs[width - width / 2..]) == BE(s)
  {
    var h := width / 2;
    LayoutSlices(r, s, width);
    BEPadded(h - |r|, r);
    BEPadded(h - |s|, s);
  }

  lemma LayoutSlices(r: seq<byte>, s: seq<byte>, width: nat)
    requires |r| <= width / 2 && |s| <= width / 2
    ensures var rs, h := Layout(r, s, width), width / 2;
            rs[..h] == Zeros(h - |r|) + r && rs[width - h..] == Zeros(h - |s|) + s
  {
    var h := width / 2;
    assert Layout(r, s, width)[..h] == Zeros(h - |r|) + r;
  }

  /**
   An accepted input with two non-zero integer lengths is exactly the SEQUENCE of those two
   INTEGERs, and each half of the output has the same unsigned value.
   */
  lemma Sound(mem: Memory, n: nat, width: nat)
    requires 2 <= width <= SIZE_MAX
    requires Parse(mem, n, width).Accepted?
    requires mem(3) > 0 && 4 + mem(3) != n && mem(5 + mem(3)) > 0
    ensures var r, s := Read(mem, 4, mem(3)), Read(mem, 6 + mem(3), mem(5 + mem(3)));
            var rs := Parse(mem, n, width).rs;
            && |r| + |s| + 4 < 0x80
            && Read(mem, 0, n) == Encoded(r, s)
            && BE(rs[..width / 2]) == BE(r)
            && BE(rs[width - width / 2..]) == BE(s)
  {
    var r, s := Read(mem, 4, mem(3)), Read(mem, 6 + mem(3), mem(5 + mem(3)));
    assert Read(mem, 0, n) == Encoded(r, s);
    assert Holds(mem, 0, Encoded(r, s)) by {
      assert forall i :: 0 <= i < n ==> Encoded(r, s)[i] == Read(mem, 0, n)[i] == mem(0 + i);
    }
    ParseEncoded(mem, r, s, width);
    LayoutHalves(Trimmed(r), Trimmed(s), width);
    BETrimmed(r);
    BETrimmed(s);
  }

  /** The single-integer form the parser also takes: s is zero. */
  lemma SoundSingle(mem: Memory, n: nat, width: nat)
    requires 2 <= width <= SIZE_MAX
    requires Parse(mem, n, width).Accepted?
    requires mem(3) > 0 && 4 + mem(3) == n
    ensures var r := Read(mem, 4, mem(3));
            var rs := Parse(mem, n, width).rs;
            && Read(mem, 0, n) == [0x30, |r| + 2, 0x02, |r|] + r
            && BE(rs[..width / 2]) == BE(r)
            && BE(rs[width - width / 2..]) == 0
  {
    var r := Read(mem, 4, mem(3));
    assert Read(mem, 0, n) == [0x30, |r| + 2, 0x02, |r|] + r;
    var t := Trim(mem, 4, mem(3));
    LayoutHalves(Read(mem, t.start, t.len), [], width);
    if t.start == 5 {
      assert r == Zeros(1) + Read(mem, 5, t.len);
      BEPadded(1, Read(mem, 5, t.len));
    }
  }

  // ----- Locality -----

  ghost predicate Agree(m: Memory, m': Memory, n: nat) {
    forall i :: 0 <= i < n ==> m(i) == m'(i)
  }

  /**
   The input ends in an INTEGER of length zero, with everything before it in order.  The
   leading-zero test for that integer reads the two bytes behind the input.
   */
  predicate Dangling(mem: Memory, n: nat, width: nat) {
    && HeaderOk(mem, n)
    && ((n == 4 && mem(3) == 0) ||
        (n == 6 + mem(3) && mem(4 + mem(3)) == 0x02 && mem(5 + mem(3)) == 0 &&
         Trim(mem, 4, mem(3)).len <= width / 2))
  }

  /** Short inputs that reach the body: the header bytes beyond the input never lead to an accept. */
  lemma ShortRejected(mem: Memory, n: nat, width: nat)
    requires width <= SIZE_MAX && (n < 4 || (n < 4 + mem(3)))
    ensures Parse(mem, n, width) == Rejected
  {
  }

  /** Unless the input dangles, verdict and output depend on its own bytes only. */
  lemma Local(m: Memory, m': Memory, n: nat, width: nat)
    requires 2 <= width <= SIZE_MAX && Agree(m, m', n) && !Dangling(m, n, width)
    ensures Parse(m, n, width) == Parse(m', n, width)
  {
    if n < 4 {
      ShortRejected(m, n, width);
      ShortRejected(m', n, width);
    } else {
      assert m(0) == m'(0) && m(1) == m'(1) && m(2) == m'(2) && m(3) == m'(3);
      if HeaderOk(m, n) {
        if n < 4 + m(3) {
          ShortRejected(m, n, width);
          ShortRejected(m', n, width);
        } else if n == 4 + m(3) {
          LocalSingle(m, m', n, width);
        } else {
          LocalDouble(m, m', n, width);
        }
      }
    }
  }

  lemma ReadAgree(m: Memory, m': Memory, n: nat, at: nat, len: nat)
    requires Agree(m, m', n) && at + len <= n
    ensures Read(m, at, len) == Read(m', at, len)
  {
  }

  /** The first of two integers is followed by a byte of the input. */
  lemma LocalFirst(m: Memory, m': Memory, n: nat)
    requires Agree(m, m', n) && 4 + m(3) + 2 <= n
    ensures m(3) == m'(3) && Trim(m, 4, m(3)) == Trim(m', 4, m(3))
  {
    assert m(4) == m'(4) && m(5) == m'(5) && m(3) == m'(3);
  }

  lemma LocalSingle(m: Memory, m': Memory, n: nat, width: nat)
    requires 2 <= width <= SIZE_MAX && Agree(m, m', n) && !Dangling(m, n, width)
    requires HeaderOk(m, n) && HeaderOk(m', n) && n == 4 + m(3) && m'(3) == m(3)
    ensures Parse(m, n, width) == Parse(m', n, width)
  {
    var r := Read(m, 4, m(3));
    assert Read(m', 4, m(3)) == r;
    SingleOutcome(m, n, width);
    SingleOutcome(m', n, width);
  }

  lemma SingleOutcome(m: Memory, n: nat, width: nat)
    requires 2 <= width <= SIZE_MAX && HeaderOk(m, n) && n == 4 + m(3) && m(3) > 0
    ensures var r := Trimmed(Read(m, 4, m(3)));
            Parse(m, n, width) == if |r| <= width / 2 then Accepted(Layout(r, [], width)) else Rejected
  {
    var r := Read(m, 4, m(3));
    if r == [0] && m(5) >= 0x80 {
      var h := width / 2;
      assert m(4) == r[0];
      assert Zeros(h) + [] == Zeros(h - 1) + [0];
      assert Layout([], [], width) == Layout([0], [], width);
    } else {
      TrimMeaning(m, 4, r);
    }
  }

  lemma LocalDouble(m: Memory, m': Memory, n: nat, width: nat)
    requires 2 <= width <= SIZE_MAX && Agree(m, m', n) && !Dangling(m, n, width)
    requires HeaderOk(m, n) && HeaderOk(m', n) && n > 4 + m(3) && m'(3) == m(3)
    ensures Parse(m, n, width) == Parse(m', n, width)
  {
    var at := 4 + m(3);
    if n == at + 1 {
      // The second length byte is not in the input; its content would start behind the input.
      EndsShort(m, n, width);
      EndsShort(m', n, width);
    } else {
      LocalFirst(m, m', n);
      var t := Trim(m, 4, m(3));
      if t.len <= width / 2 {
        ReadAgree(m, m', n, t.start, t.len);
        LocalSecond(m, m', n, width, at, Read(m, t.start, t.len));
      }
    }
  }

  lemma EndsShort(m: Memory, n: nat, width: nat)
    requires width <= SIZE_MAX && n == 5 + m(3)
    ensures Parse(m, n, width) == Rejected
  {
  }

  /** The second integer looks behind the input only when it is the empty end of the input. */
  lemma LocalSecond(m: Memory, m': Memory, n: nat, width: nat, at: nat, first: seq<byte>)
    requires 2 <= width <= SIZE_MAX && |first| <= width / 2 && Agree(m, m', n) && at + 2 <= n
    requires !(m(at) == 0x02 && m(at + 1) == 0 && n == at + 2)
    ensures Second(m, n, width, at, first) == Second(m', n, width, at, first)
  {
    assert m(at) == m'(at) && m(at + 1) == m'(at + 1);
    if m(at) == 0x02 && 0 < m(at + 1) < 0x80 && n == at + 2 + m(at + 1) {
      SecondOutcome(m, n, width, at, first);
      SecondOutcome(m', n, width, at, first);
      ReadAgree(m, m', n, at + 2, m(at + 1));
    } else {
      SecondMisfit(m, n, width, at, first);
      SecondMisfit(m', n, width, at, first);
    }
  }

  lemma SecondMisfit(m: Memory, n: nat, width: nat, at: nat, first: seq<byte>)
    requires width <= SIZE_MAX && |first| <= width / 2
    requires !(m(at) == 0x02 && m(at + 1) < 0x80 && n == at + 2 + m(at + 1))
    ensures Second(m, n, width, at, first) == Rejected
  {
  }

  lemma SecondOutcome(m: Memory, n: nat, width: nat, at: nat, first: seq<byte>)
    requires 2 <= width <= SIZE_MAX && |first| <= width / 2
    requires m(at) == 0x02 && 0 < m(at + 1) < 0x80 && n == at + 2 + m(at + 1)
    ensures var s := Trimmed(Read(m, at + 2, m(at + 1)));
            Second(m, n, width, at, first) ==
            if |s| <= width / 2 then Accepted(Layout(first, s, width)) else Rejected
  {
    var s := Read(m, at + 2, m(at + 1));
    if s == [0] && m(at + 3) >= 0x80 {
      assert m(at + 2) == s[0];
      LayoutZero(first, width);
    } else {
      TrimMeaning(m, at + 2, s);
    }
  }

  /** A zero byte for s is the same as no byte. */
  lemma LayoutZero(first: seq<byte>, width: nat)
    requires 2 <= width && |first| <= width / 2
    ensures Layout(first, [], width) == Layout(first, [0], width)
  {
    var k := width - width / 2;
    assert Zeros(k) + [] == Zeros(k - 1) + [0];
  }

  /** A dangling input is accepted or not by what happens to stand behind it. */
  lemma DanglingVerdict(mem: Memory, n: nat, width: nat)
    requires 2 <= width <= SIZE_MAX && Dangling(mem, n, width)
    ensures Parse(mem, n, width).Accepted? <==> !(mem(n) == 0 && mem(n + 1) >= 0x80)
  {
  }

  /** The bytes of `mem` up to `n`, then two given ones, then zeros. */
  function WithTail(mem: Memory, n: nat, x: byte, y: byte): Memory {
    (i: nat) => if i < n then mem(i) else if i == n then x else if i == n + 1 then y else 0
  }

  /** Locality holds iff the input does not dangle. */
  lemma LocalIff(mem: Memory, n: nat, width: nat)
    requires 2 <= width <= SIZE_MAX
    ensures Dangling(mem, n, width) <==>
            Parse(WithTail(mem, n, 0, 0x80), n, width) != Parse(WithTail(mem, n, 1, 0), n, width)
    ensures !Dangling(mem, n, width) <==>
            forall m: Memory, m': Memory :: Agree(mem, m, n) && Agree(mem, m', n) ==>
              Parse(m, n, width) == Parse(m', n, width)
  {
    var a, b := WithTail(mem, n, 0, 0x80), WithTail(mem, n, 1, 0);
    assert Agree(mem, a, n) && Agree(mem, b, n);
    if Dangling(mem, n, width) {
      DanglingAgree(mem, a, n, width);
      DanglingAgree(mem, b, n, width);
      DanglingVerdict(a, n, width);
      DanglingVerdict(b, n, width);
    } else {
      forall m: Memory, m': Memory | Agree(mem, m, n) && Agree(mem, m', n)
        ensures Parse(m, n, width) == Parse(m', n, width)
      {
        Local(mem, m, n, width);
        Local(mem, m', n, width);
      }
    }
  }

  lemma DanglingAgree(m: Memory, m': Memory, n: nat, width: nat)
    requires Agree(m, m', n) && Dangling(m, n, width)
    ensures Dangling(m', n, width)
  {
    assert n >= 4;
    assert m(0) == m'(0) && m(1) == m'(1) && m(2) == m'(2) && m(3) == m'(3);
    if n > 4 {
      LocalFirst(m, m', n);
      assert m(4 + m(3)) == m'(4 + m(3)) && m(5 + m(3)) == m'(5 + m(3));
    }
  }

  /** Two continuations agree on a parse when neither is a zero byte before one with the top bit. */
  lemma TailHarmless(m: Memory, m': Memory, n: nat, width: nat)
    requires 2 <= width <= SIZE_MAX && Agree(m, m', n)
    requires !(m(n) == 0 && m(n + 1) >= 0x80) && !(m'(n) == 0 && m'(n + 1) >= 0x80)
    ensures Parse(m, n, width) == Parse(m', n, width)
  {
    if !Dangling(m, n, width) {
      Local(m, m', n, width);
    } else {
      DanglingAgree(m, m', n, width);
      if n > 4 {
        LocalFirst(m, m', n);
        var t := Trim(m, 4, m(3));
        ReadAgree(m, m', n, t.start, t.len);
      }
    }
  }
}
