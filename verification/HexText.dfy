/** BufferToString and StringToBuffer of the crypto tests: bytes as hexadecimal text and back. */
module HexText {
  import opened Bytes
  import opened DigitText

  predicate IsHex(c: char) {
    '0' <= c <= '9' || 'a' <= c <= 'f' || 'A' <= c <= 'F'
  }

  /** The text of a buffer, two digits for each byte. */
  function Hex(b: seq<byte>): (s: string)
    ensures |s| == 2 * |b|
  {
    if b == [] then ""
    else Hex(b[..|b| - 1]) + [DigitChar(b[|b| - 1] / 16, false), DigitChar(b[|b| - 1] % 16, false)]
  }

  /** The bytes that the first `k` pairs of digits stand for. */
  function Unhex(s: string, k: nat): (b: seq<byte>)
    requires 2 * k <= |s|
    ensures |b| == k
  {
    if k == 0 then [] else Unhex(s, k - 1) + [DigitValue(s[2 * k - 2]) * 16 + DigitValue(s[2 * k - 1])]
  }

  /** The text of a buffer is made of hexadecimal digits, the letters among them small. */
  lemma {:induction false} HexIsHex(b: seq<byte>)
    ensures forall i :: 0 <= i < |Hex(b)| ==> '0' <= Hex(b)[i] <= '9' || 'a' <= Hex(b)[i] <= 'f'
  {
    if b != [] {
      HexIsHex(b[..|b| - 1]);
    }
  }

  /** Read as a number of base 16, the text is the big-endian value of the bytes. */
  lemma {:induction false} HexValue(b: seq<byte>)
    ensures Value(Hex(b), 16) == BE(b)
  {
    if b != [] {
      var n := |b| - 1;
      var h, x, y := Hex(b[..n]), DigitChar(b[n] / 16, false), DigitChar(b[n] % 16, false);
      HexValue(b[..n]);
      BEPrefix(b, b[..n], n);
      DigitReadBack(b[n] / 16, false);
      DigitReadBack(b[n] % 16, false);
      ValueStep(h, x);
      ValueStep(h + [x], y);
      assert Hex(b) == h + [x] + [y];
    }
  }

  lemma ValueStep(s: string, c: char)
    ensures Value(s + [c], 16) == Value(s, 16) * 16 + DigitValue(c)
  {
    assert (s + [c])[..|s|] == s;
  }

  /** Every byte string survives the trip through its text, whatever stands behind the text. */
  lemma {:induction false} UnhexHex(b: seq<byte>, s: string)
    requires Hex(b) <= s
    ensures Unhex(s, |b|) == b
  {
    if b != [] {
      var n := |b| - 1;
      var x, y := DigitChar(b[n] / 16, false), DigitChar(b[n] % 16, false);
      var h := Hex(b);
      assert h == Hex(b[..n]) + [x, y];
      assert s[2 * n] == h[2 * n] == x && s[2 * n + 1] == h[2 * n + 1] == y;
      UnhexHex(b[..n], s);
      DigitReadBack(b[n] / 16, false);
      DigitReadBack(b[n] % 16, false);
      assert b == b[..n] + [b[n]];
    }
  }

  /** `str` needs room for the digits and the terminator. */
  method BufferToString(buf: array<byte>, len: nat, str: array<char>)
    requires len <= buf.Length && 2 * len < str.Length
    modifies str
    ensures str[..2 * len] == Hex(buf[..len]) && str[2 * len] == '\0'
    ensures str[2 * len + 1..] == old(str[2 * len + 1..])
  {
    for i := 0 to len
      invariant str[..2 * i] == Hex(buf[..i])
      invariant forall j :: 2 * i <= j < str.Length ==> str[j] == old(str[j])
    {
      ghost var done := str[..2 * i];
      str[2 * i] := DigitChar(buf[i] / 16, false);
      str[2 * i + 1] := DigitChar(buf[i] % 16, false);
      assert buf[..i + 1][..i] == buf[..i];
      assert str[..2 * (i + 1)] == done + [str[2 * i], str[2 * i + 1]];
    }
    str[2 * len] := '\0';
  }

  /** Characters other than hexadecimal digits trip the assertion of the source. */
  method StringToBuffer(str: string, len: nat, buf: array<byte>)
    requires 2 * len <= |str| && len <= buf.Length
    requires forall i :: 0 <= i < 2 * len ==> IsHex(str[i])
    modifies buf
    ensures buf[..len] == Unhex(str, len)
    ensures buf[len..] == old(buf[len..])
  {
    for i := 0 to len
      invariant buf[..i] == Unhex(str, i)
      invariant forall j :: i <= j < buf.Length ==> buf[j] == old(buf[j])
    {
      ghost var done := buf[..i];
      buf[i] := DigitValue(str[2 * i]) * 16 + DigitValue(str[2 * i + 1]);
      assert buf[..i + 1] == done + [buf[i]];
    }
  }
}
