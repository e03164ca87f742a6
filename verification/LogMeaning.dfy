/**
 What the formatted string is, without the function that makes it: each tag alone, by reading its
 text back, and that a format printed in pieces is the pieces printed one after the other.
 */
module LogMeaning {
  import opened Common
  import opened Bytes
  import opened DigitText
  import opened LogText

  ghost predicate Decimal(s: string) {
    s != "" && forall i :: 0 <= i < |s| ==> '0' <= s[i] <= '9'
  }

  ghost predicate LowerHex(s: string) {
    s != "" && forall i :: 0 <= i < |s| ==> '0' <= s[i] <= '9' || 'a' <= s[i] <= 'f'
  }

  ghost predicate UpperHex(s: string) {
    s != "" && forall i :: 0 <= i < |s| ==> '0' <= s[i] <= '9' || 'A' <= s[i] <= 'F'
  }

  lemma {:induction false} DigitsShape(n: nat, upper: bool)
    ensures Decimal(Digits(n, 10, upper))
    decreases n
  {
    if n >= 10 {
      DigitsShape(n / 10, upper);
    }
  }

  lemma {:induction false} HexShape(n: nat)
    ensures LowerHex(Digits(n, 16, false)) && UpperHex(Digits(n, 16, true))
    decreases n
  {
    if n >= 16 {
      HexShape(n / 16);
    }
  }

  // ----- One tag -----

  lemma OneTag(tag: char, a: Arg)
    requires IsTag(tag) && Fits(tag, a)
    ensures Matches(['%', tag], [a]) && Format(['%', tag], [a]) == Converted(tag, a)
  {
    var f: CString := ['%', tag];
    assert f[2..] == "" && [a][1..] == [];
    assert Converted(tag, a) + "" == Converted(tag, a);
  }

  /** Signed decimal: the digits of the magnitude behind a minus iff the number is negative. */
  lemma SignedTags(v: UInt32)
    ensures Matches("%d", [Word(v)]) && Matches("%i", [Word(v)])
    ensures Format("%d", [Word(v)]) == Format("%i", [Word(v)])
    ensures var s := Format("%d", [Word(v)]);
            var digits := if Signed(v) < 0 then s[1..] else s;
            && s != "" && (s[0] == '-' <==> Signed(v) < 0)
            && Decimal(digits) && (digits[0] == '0' <==> v == 0)
            && Value(digits, 10) == (if Signed(v) < 0 then -Signed(v) else Signed(v))
  {
    OneTag('d', Word(v));
    OneTag('i', Word(v));
    assert ['%', 'd'] == "%d" && ['%', 'i'] == "%i";
    var d := Digits(Magnitude(v), 10, false);
    DigitsReadBack(Magnitude(v), 10, false);
    DigitsShape(Magnitude(v), false);
    if Signed(v) < 0 {
      assert ("-" + d)[1..] == d;
    } else {
      assert "" + d == d;
    }
  }

  /** Unsigned decimal. */
  lemma UnsignedTag(v: UInt32)
    ensures Matches("%u", [Word(v)])
    ensures var s := Format("%u", [Word(v)]);
            Decimal(s) && (s[0] == '0' <==> v == 0) && Value(s, 10) == v
  {
    OneTag('u', Word(v));
    assert ['%', 'u'] == "%u";
    DigitsReadBack(v, 10, false);
    DigitsShape(v, false);
  }

  /** Hexadecimal in small or capital letters, and pointers. */
  lemma HexTags(v: UInt32)
    ensures Matches("%x", [Word(v)]) && Matches("%X", [Word(v)]) && Matches("%p", [Word(v)])
    ensures var s := Format("%x", [Word(v)]);
            && LowerHex(s) && (s[0] == '0' <==> v == 0) && Value(s, 16) == v
            && Format("%p", [Word(v)]) == "0x" + s
    ensures var s := Format("%X", [Word(v)]);
            UpperHex(s) && (s[0] == '0' <==> v == 0) && Value(s, 16) == v
  {
    OneTag('x', Word(v));
    OneTag('X', Word(v));
    OneTag('p', Word(v));
    assert ['%', 'x'] == "%x" && ['%', 'X'] == "%X" && ['%', 'p'] == "%p";
    DigitsReadBack(v, 16, false);
    DigitsReadBack(v, 16, true);
    HexShape(v);
  }

  /** Strings and characters go in as they are; a character is the low byte of its argument. */
  lemma TextTags(s: CString, v: UInt32)
    ensures Matches("%s", [Str(s)]) && Format("%s", [Str(s)]) == s
    ensures Matches("%c", [Word(v)]) && |Format("%c", [Word(v)])| == 1
    ensures Format("%c", [Word(v)])[0] as int == v % 256
  {
    OneTag('s', Str(s));
    OneTag('c', Word(v));
    assert ['%', 's'] == "%s" && ['%', 'c'] == "%c";
  }

  /** A doubled percent sign is one; a notice stands for a lone one at the end and before an unknown tag. */
  lemma OtherTags(c: char)
    requires c != '\0' && c != '%' && c !in "diuxXpsc"
    ensures Matches("%%", []) && Format("%%", []) == "%"
    ensures Matches("%", []) && Format("%", []) == "[Unsupported Tag]"
    ensures Matches(['%', c], []) && Format(['%', c], []) == "[Unsupported Tag]" + [c]
  {
    assert "%%"[2..] == "" && "%"[1..] == "";
    var f: CString := ['%', c];
    assert f[1..] == [c] && [c][1..] == "";
    assert !IsTag(c);
  }

  // ----- Pieces -----

  /** The format does not stop within a tag. */
  predicate Whole(fmt: CString)
    decreases |fmt|
  {
    if fmt == "" then true
    else if fmt[0] != '%' then Whole(fmt[1..])
    else if |fmt| == 1 then false
    else if IsTag(fmt[1]) || fmt[1] == '%' then Whole(fmt[2..])
    else Whole(fmt[1..])
  }

  /** Text without a percent sign is printed as it is. */
  lemma {:induction false} PlainText(fmt: CString)
    requires '%' !in fmt
    ensures Whole(fmt) && Matches(fmt, []) && Format(fmt, []) == fmt
  {
    if fmt != "" {
      PlainText(fmt[1..]);
    }
  }

  /** Two formats one after the other print their texts one after the other. */
  lemma {:induction false} FormatAppend(a: CString, b: CString, x: seq<Arg>, y: seq<Arg>)
    requires Whole(a) && Matches(a, x) && Matches(b, y)
    ensures Matches(a + b, x + y) && Format(a + b, x + y) == Format(a, x) + Format(b, y)
    decreases |a|
  {
    if a == "" {
      assert a + b == b && x + y == y && "" + Format(b, y) == Format(b, y);
    } else if a[0] == '%' && IsTag(a[1]) {
      Behind(a, b, 2);
      Behind(x, y, 1);
      FormatAppend(a[2..], b, x[1..], y);
      Assoc(Converted(a[1], x[0]), Format(a[2..], x[1..]), Format(b, y));
    } else if a[0] == '%' && a[1] == '%' {
      Behind(a, b, 2);
      FormatAppend(a[2..], b, x, y);
      Assoc("%", Format(a[2..], x), Format(b, y));
    } else {
      Behind(a, b, 1);
      FormatAppend(a[1..], b, x, y);
      Assoc(if a[0] == '%' then UNSUPPORTED else [a[0]], Format(a[1..], x), Format(b, y));
    }
  }

  lemma Behind<T>(s: seq<T>, t: seq<T>, n: nat)
    requires 0 < n <= |s|
    ensures (s + t)[n..] == s[n..] + t && forall i :: 0 <= i < n ==> (s + t)[i] == s[i]
  {
  }

  lemma Assoc(s: string, t: string, u: string)
    ensures s + (t + u) == s + t + u
  {
  }
}
