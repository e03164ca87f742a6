/**
 DER encoding (sections 8.1.3, 8.3 and 10.1 of X.690) of an (r, s) pair, and what the
 parser makes of it.  The parser knows the short form of lengths only, which is enough
 for every pair of a half width up to 60 bytes and for no larger width.
 */
module DerRoundTrip {
  import opened Bytes
  import opened DerSignature

  /** Content of an INTEGER: minimal, with a leading zero when the top bit would make it negative. */
  function Content(v: nat): (s: seq<byte>)
    ensures s != []
  {
    var m := MinBE(v);
    if m[0] >= 0x80 then [0] + m else m
  }

  /** Length octets: short form below 128, otherwise the byte count and the bytes. */
  function LengthOctets(n: nat): (s: seq<byte>)
    requires n < 0x1_0000_0000
    ensures s != []
    ensures n < 0x80 ==> s == [n]
    ensures n >= 0x80 ==> s[0] >= 0x80
  {
    if n < 0x80 then [n]
    else
      assert |MinBE(n)| <= 4 by {
        assert Pow256(4) == 256 * (256 * (256 * (256 * Pow256(0))));
        MinBELength(n, 4);
      }
      [0x80 + |MinBE(n)|] + MinBE(n)
  }

  /** Room for the content of both integers with their tags and lengths, in one 32-bit length. */
  predicate Encodable(r: nat, s: nat) {
    |Content(r)| + |Content(s)| + 12 < 0x1_0000_0000
  }

  function IntegerOctets(v: nat): (s: seq<byte>)
    requires |Content(v)| < 0x1_0000_0000
  {
    [0x02] + LengthOctets(|Content(v)|) + Content(v)
  }

  function Body(r: nat, s: nat): seq<byte>
    requires Encodable(r, s)
  {
    IntegerOctets(r) + IntegerOctets(s)
  }

  lemma LengthOctetsShort(n: nat)
    requires n < 0x1_0000_0000
    ensures |LengthOctets(n)| <= 5
  {
    if n >= 0x80 {
      assert Pow256(4) == 256 * (256 * (256 * (256 * Pow256(0))));
      MinBELength(n, 4);
    }
  }

  lemma BodyFits(r: nat, s: nat)
    requires Encodable(r, s)
    ensures |Content(r)| + |Content(s)| + 4 <= |Body(r, s)| < 0x1_0000_0000
    ensures |Body(r, s)| < 0x80 <==> |Content(r)| + |Content(s)| + 4 < 0x80
  {
    LengthOctetsShort(|Content(r)|);
    LengthOctetsShort(|Content(s)|);
  }

  function Der(r: nat, s: nat): seq<byte>
    requires Encodable(r, s)
  {
    BodyFits(r, s);
    [0x30] + LengthOctets(|Body(r, s)|) + Body(r, s)
  }

  /** The parser's own condition, on the numbers: the sequence length fits seven bits. */
  predicate ShortForm(r: nat, s: nat) {
    |Content(r)| + |Content(s)| + 4 < 0x80
  }

  lemma DerShort(r: nat, s: nat)
    requires ShortForm(r, s)
    ensures Encodable(r, s) && Der(r, s) == Encoded(Content(r), Content(s))
  {
    BodyFits(r, s);
  }

  lemma TrimmedContent(v: nat)
    ensures Trimmed(Content(v)) == MinBE(v)
  {
    var m := MinBE(v);
    if m[0] >= 0x80 {
      assert ([0] + m)[1..] == m;
    }
  }

  /** `v` in exactly `h` bytes. */
  function Padded(v: nat, h: nat): (s: seq<byte>)
    requires |MinBE(v)| <= h
    ensures |s| == h
  {
    Zeros(h - |MinBE(v)|) + MinBE(v)
  }

  lemma PaddedValue(v: nat, h: nat)
    requires |MinBE(v)| <= h
    ensures BE(Padded(v, h)) == v
  {
    BEPadded(h - |MinBE(v)|, MinBE(v));
    BEMinBE(v);
  }

  /** An integer content that a half of `h` bytes has room for: at most one byte more, a needed zero. */
  predicate Narrow(r: seq<byte>, h: nat) {
    |r| <= h || (|r| == h + 1 && |r| >= 2 && r[0] == 0 && r[1] >= 0x80)
  }

  /**
   A SEQUENCE of two non-empty INTEGERs is accepted iff each of them fits its half, counting a
   zero before a byte with the top bit for nothing; the halves then have the integers' values.
   */
  lemma AcceptedIff(mem: Memory, r: seq<byte>, s: seq<byte>, width: nat)
    requires 2 <= width <= SIZE_MAX && r != [] && s != [] && |r| + |s| + 4 < 0x80
    requires Holds(mem, 0, Encoded(r, s))
    ensures var p := Parse(mem, |Encoded(r, s)|, width);
            && (p.Accepted? <==> Narrow(r, width / 2) && Narrow(s, width / 2))
            && (p.Accepted? ==>
                  |p.rs| == width && BE(p.rs[..width / 2]) == BE(r) && BE(p.rs[width - width / 2..]) == BE(s))
  {
    ParseEncoded(mem, r, s, width);
    if Narrow(r, width / 2) && Narrow(s, width / 2) {
      LayoutHalves(Trimmed(r), Trimmed(s), width);
      BETrimmed(r);
      BETrimmed(s);
    }
  }

  /**
   Parsing the DER form of (r, s) succeeds iff the sequence length is in short form, and then
   gives both numbers padded to their halves; whatever stands behind the encoding in memory.
   */
  lemma RoundTrip(mem: Memory, r: nat, s: nat, h: nat)
    requires 1 <= h && 2 * h <= SIZE_MAX && r < Pow256(h) && s < Pow256(h)
    requires Encodable(r, s) && Holds(mem, 0, Der(r, s))
    ensures |MinBE(r)| <= h && |MinBE(s)| <= h
    ensures Parse(mem, |Der(r, s)|, 2 * h) ==
            if ShortForm(r, s) then Accepted(Padded(r, h) + Padded(s, h)) else Rejected
    ensures BE(Padded(r, h)) == r && BE(Padded(s, h)) == s
  {
    MinBELength(r, h);
    MinBELength(s, h);
    PaddedValue(r, h);
    PaddedValue(s, h);
    if ShortForm(r, s) {
      ShortAccepted(mem, r, s, h);
    } else {
      LongRejected(mem, r, s, h);
    }
  }

  lemma ShortAccepted(mem: Memory, r: nat, s: nat, h: nat)
    requires 1 <= h && 2 * h <= SIZE_MAX && |MinBE(r)| <= h && |MinBE(s)| <= h
    requires ShortForm(r, s) && Encodable(r, s) && Holds(mem, 0, Der(r, s))
    ensures Parse(mem, |Der(r, s)|, 2 * h) == Accepted(Padded(r, h) + Padded(s, h))
  {
    DerShort(r, s);
    ParseEncoded(mem, Content(r), Content(s), 2 * h);
    TrimmedContent(r);
    TrimmedContent(s);
    LayoutPadded(r, s, h);
  }

  lemma LayoutPadded(r: nat, s: nat, h: nat)
    requires |MinBE(r)| <= h && |MinBE(s)| <= h
    ensures Layout(MinBE(r), MinBE(s), 2 * h) == Padded(r, h) + Padded(s, h)
  {
    var k, l := Zeros(h - |MinBE(r)|), Zeros(h - |MinBE(s)|);
    assert 2 * h / 2 == h;
    assert k + MinBE(r) + l + MinBE(s) == (k + MinBE(r)) + (l + MinBE(s));
  }

  lemma LongRejected(mem: Memory, r: nat, s: nat, h: nat)
    requires 2 * h <= SIZE_MAX
    requires !ShortForm(r, s) && Encodable(r, s) && Holds(mem, 0, Der(r, s))
    ensures Parse(mem, |Der(r, s)|, 2 * h) == Rejected
  {
    BodyFits(r, s);
    var d := Der(r, s);
    assert d[1] == LengthOctets(|Body(r, s)|)[0];
    assert mem(0 + 1) == d[1];
  }

  lemma ContentLength(v: nat, h: nat)
    requires h > 0 && v < Pow256(h)
    ensures |Content(v)| <= h + 1
  {
    MinBELength(v, h);
  }

  /** Up to 60 bytes per half every pair is in short form. */
  lemma SixtyIsEnough(r: nat, s: nat, h: nat)
    requires 1 <= h <= 60 && r < Pow256(h) && s < Pow256(h)
    ensures ShortForm(r, s)
  {
    ContentLength(r, h);
    ContentLength(s, h);
  }

  /** The largest number of `h` bytes is all ones. */
  lemma {:induction false} LargestContent(h: nat)
    requires h > 0
    ensures |MinBE(Pow256(h) - 1)| == h && MinBE(Pow256(h) - 1)[0] == 0xFF
    decreases h
  {
    if h > 1 {
      var v := Pow256(h) - 1;
      assert v == 256 * (Pow256(h - 1) - 1) + 255;
      assert v / 256 == Pow256(h - 1) - 1 && v % 256 == 255;
      PowGrows(h);
      LargestContent(h - 1);
    } else {
      assert Pow256(1) == 256 * Pow256(0) == 256;
    }
  }

  /** Beyond 60 bytes the largest pair is not. */
  lemma SixtyOneIsTooMuch(h: nat)
    requires h > 60
    ensures !ShortForm(Pow256(h) - 1, Pow256(h) - 1)
  {
    LargestContent(h);
  }
}
