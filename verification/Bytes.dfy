/** Bytes, and the number representations used on the wire: big endian of any width, little-endian words. */
module Bytes {
  import opened Common

  type byte = x: int | 0 <= x < 256

  /** A C string: no terminator inside. */
  type CString = s: string | '\0' !in s

  const SIZE_MAX: nat := 0xFFFF_FFFF

  function Zeros(n: nat): (z: seq<byte>)
    ensures |z| == n
  {
    seq(n, _ => 0)
  }

  function Pow256(n: nat): (p: nat)
    ensures p > 0
  {
    if n == 0 then 1 else 256 * Pow256(n - 1)
  }

  /** Unsigned big-endian value of the first `n` bytes. */
  function BEUpTo(s: seq<byte>, n: nat): nat
    requires n <= |s|
  {
    if n == 0 then 0 else BEUpTo(s, n - 1) * 256 + s[n - 1]
  }

  /** Unsigned big-endian value. */
  function BE(s: seq<byte>): nat {
    BEUpTo(s, |s|)
  }

  lemma {:induction false} BEPrefix(s: seq<byte>, t: seq<byte>, n: nat)
    requires n <= |s| && n <= |t| && forall i :: 0 <= i < n ==> s[i] == t[i]
    ensures BEUpTo(s, n) == BEUpTo(t, n)
  {
    if n > 0 {
      BEPrefix(s, t, n - 1);
    }
  }

  lemma {:induction false} BEPaddedUpTo(k: nat, s: seq<byte>, n: nat)
    requires n <= |s|
    ensures BEUpTo(Zeros(k) + s, k + n) == BEUpTo(s, n)
    decreases n, k
  {
    if n > 0 {
      BEPaddedUpTo(k, s, n - 1);
    } else if k > 0 {
      BEPaddedUpTo(k - 1, s, 0);
      BEPrefix(Zeros(k) + s, Zeros(k - 1) + s, k - 1);
    }
  }

  lemma BEPadded(k: nat, s: seq<byte>)
    ensures BE(Zeros(k) + s) == BE(s)
  {
    BEPaddedUpTo(k, s, |s|);
  }

  /** The shortest big-endian form, one zero byte for 0. */
  function MinBE(v: nat): (s: seq<byte>)
    ensures s != []
    ensures v > 0 ==> s[0] > 0
    ensures v == 0 ==> s == [0]
  {
    if v < 256 then [v] else MinBE(v / 256) + [v % 256]
  }

  lemma {:induction false} BEMinBE(v: nat)
    ensures BE(MinBE(v)) == v
  {
    if v >= 256 {
      var s := MinBE(v / 256);
      BEPrefix(s + [v % 256], s, |s|);
      BEMinBE(v / 256);
    } else {
      assert BEUpTo([v], 0) == 0;
    }
  }

  lemma {:induction false} MinBELength(v: nat, h: nat)
    ensures |MinBE(v)| <= h <==> h > 0 && v < Pow256(h)
    decreases v
  {
    if v >= 256 && h > 0 {
      MinBELength(v / 256, h - 1);
      if h == 1 {
        assert Pow256(1) == 256 * Pow256(0) == 256;
      }
    } else if h > 0 {
      PowGrows(h);
    }
  }

  lemma {:induction false} PowGrows(h: nat)
    requires h > 0
    ensures Pow256(h) >= 256
  {
    if h > 1 {
      PowGrows(h - 1);
    }
  }

  // ----- 32-bit words, least significant byte first -----

  function LE32(v: UInt32): (s: seq<byte>)
    ensures |s| == 4
  {
    [v % 256, v / 256 % 256, v / 65536 % 256, v / 16777216]
  }

  function Word(b0: byte, b1: byte, b2: byte, b3: byte): UInt32 {
    b0 + 256 * b1 + 65536 * b2 + 16777216 * b3
  }

  lemma WordLE32(v: UInt32)
    ensures var s := LE32(v); Word(s[0], s[1], s[2], s[3]) == v
  {
    assert v / 65536 == v / 256 / 256 && v / 16777216 == v / 65536 / 256;
  }

  /** A word is its bytes by weight, the least one first. */
  lemma LE32Weights(v: UInt32)
    ensures var s := LE32(v);
            s[0] as int + 0x100 * s[1] as int + 0x1_0000 * s[2] as int + 0x100_0000 * s[3] as int == v
  {
    WordLE32(v);
  }

  /** Bytes whose number fits a 32-bit length. */
  type Blob = s: seq<byte> | |s| < 0x1_0000_0000

  /** A blob behind its length. */
  function Prefixed(b: Blob): (s: seq<byte>)
    ensures |s| == 4 + |b|
  {
    LE32(|b|) + b
  }

  // ----- Memory -----

  /** Memory seen from a pointer on: readable at every offset, also past the object pointed to. */
  type Memory = nat -> byte

  function Read(mem: Memory, at: nat, len: nat): (s: seq<byte>)
    ensures |s| == len
  {
    seq(len, i requires 0 <= i => mem(at + i))
  }

  function From(mem: Memory, at: nat): Memory {
    (i: nat) => mem(at + i)
  }

  /** Little-endian value of `n` bytes. */
  function Little(mem: Memory, at: nat, n: nat): (v: nat)
    ensures v < Pow256(n)
    decreases n, at
  {
    if n == 0 then 0 else mem(at) + 256 * Little(mem, at + 1, n - 1)
  }

  function Word32(mem: Memory, at: nat): UInt32 {
    assert Pow256(4) == 256 * (256 * (256 * (256 * Pow256(0))));
    Little(mem, at, 4)
  }

  lemma Word32Bytes(mem: Memory, at: nat)
    ensures Word32(mem, at) == Word(mem(at), mem(at + 1), mem(at + 2), mem(at + 3))
  {
    assert Little(mem, at, 4) == mem(at) + 256 * Little(mem, at + 1, 3);
    assert Little(mem, at + 1, 3) == mem(at + 1) + 256 * Little(mem, at + 2, 2);
    assert Little(mem, at + 2, 2) == mem(at + 2) + 256 * Little(mem, at + 3, 1);
    assert Little(mem, at + 3, 1) == mem(at + 3) + 256 * Little(mem, at + 4, 0);
  }

  /** The bytes `s` stand at offset `at`. */
  ghost predicate Holds(mem: Memory, at: nat, s: seq<byte>) {
    Read(mem, at, |s|) == s
  }
}
