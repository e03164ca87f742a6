/**
 What the log formatter (lib/log/tfm_log_raw.c) is meant to print: numbers as text, and a
 format string with its arguments as one string.  Nothing here knows about buffers.
 */
module LogText {
  import opened Common
  import opened Bytes
  import opened DigitText

  const UNSUPPORTED: CString := "[Unsupported Tag]"

  // ----- Numbers -----

  function Digits(n: nat, base: nat, upper: bool): (s: string)
    requires base == 10 || base == 16
    ensures s != ""
    decreases n
  {
    if n < base then [DigitChar(n, upper)]
    else Digits(n / base, base, upper) + [DigitChar(n % base, upper)]
  }

  /** Reading the digits of a number gives it back, and only 0 starts with a zero. */
  lemma {:induction false} DigitsReadBack(n: nat, base: nat, upper: bool)
    requires base == 10 || base == 16
    ensures Value(Digits(n, base, upper), base) == n
    ensures Digits(n, base, upper)[0] == '0' <==> n == 0
    ensures Digits(n, base, upper)[0] != '-'
    decreases n
  {
    if n < base {
      DigitReadBack(n, upper);
      assert [DigitChar(n, upper)][..0] == "";
    } else {
      var s, c := Digits(n / base, base, upper), DigitChar(n % base, upper);
      assert (s + [c])[..|s|] == s;
      DigitsReadBack(n / base, base, upper);
      DigitReadBack(n % base, upper);
    }
  }

  function Pow(base: nat, k: nat): nat {
    if k == 0 then 1 else base * Pow(base, k - 1)
  }

  lemma {:induction false} DigitsLength(n: nat, base: nat, upper: bool, k: nat)
    requires base == 10 || base == 16
    requires k > 0 && n < Pow(base, k)
    ensures |Digits(n, base, upper)| <= k
    decreases n
  {
    if n >= base {
      if k > 1 {
        DigitsLength(n / base, base, upper, k - 1);
      }
    }
  }

  /** A 32-bit number has at most 10 decimal or 8 hexadecimal digits. */
  lemma WordLength(n: UInt32, upper: bool)
    ensures |Digits(n, 10, upper)| <= 10 && |Digits(n, 16, upper)| <= 8
  {
    assert Pow(10, 5) == 10 * (10 * (10 * (10 * (10 * Pow(10, 0))))) == 100000;
    assert Pow(10, 10) == 10 * (10 * (10 * (10 * (10 * Pow(10, 5)))));
    assert Pow(16, 4) == 16 * (16 * (16 * (16 * Pow(16, 0)))) == 65536;
    assert Pow(16, 8) == 16 * (16 * (16 * (16 * Pow(16, 4))));
    DigitsLength(n, 10, upper, 10);
    DigitsLength(n, 16, upper, 8);
  }

  /** The magnitude printed for a signed word: the negation is taken modulo 2^32. */
  function Magnitude(v: UInt32): UInt32 {
    if Signed(v) < 0 then Unsigned(-Signed(v)) else v
  }

  function SignedText(v: UInt32): string {
    (if Signed(v) < 0 then "-" else "") + Digits(Magnitude(v), 10, false)
  }

  function SignedValue(s: string): int {
    if s != "" && s[0] == '-' then -(Value(s[1..], 10) as int) else Value(s, 10)
  }

  /** Every signed word, the smallest one included, is read back from its text. */
  lemma SignedReadBack(v: UInt32)
    ensures SignedValue(SignedText(v)) == Signed(v)
    ensures |SignedText(v)| <= 11
  {
    var d := Digits(Magnitude(v), 10, false);
    DigitsReadBack(Magnitude(v), 10, false);
    WordLength(Magnitude(v), false);
    if Signed(v) < 0 {
      assert ("-" + d)[1..] == d;
    } else {
      assert "" + d == d;
    }
  }

  // ----- Formats -----

  datatype Arg = Word(v: UInt32) | Str(s: CString)

  predicate IsTag(c: char) {
    c == 'd' || c == 'i' || c == 'u' || c == 'x' || c == 'X' || c == 'p' || c == 's' || c == 'c'
  }

  /** The argument has the type the tag reads. */
  predicate Fits(tag: char, a: Arg) {
    if tag == 's' then a.Str? else a.Word?
  }

  function Converted(tag: char, a: Arg): string
    requires IsTag(tag) && Fits(tag, a)
  {
    if tag == 'd' || tag == 'i' then SignedText(a.v)
    else if tag == 'u' then Digits(a.v, 10, false)
    else if tag == 'x' then Digits(a.v, 16, false)
    else if tag == 'X' then Digits(a.v, 16, true)
    else if tag == 'p' then "0x" + Digits(a.v, 16, false)
    else if tag == 's' then a.s
    else [(a.v % 256) as char]
  }

  /** The arguments are those the format asks for, in number and type. */
  predicate Matches(fmt: CString, args: seq<Arg>)
    decreases |fmt|
  {
    if fmt == "" then args == []
    else if fmt[0] != '%' || |fmt| == 1 then Matches(fmt[1..], args)
    else if IsTag(fmt[1]) then args != [] && Fits(fmt[1], args[0]) && Matches(fmt[2..], args[1..])
    else if fmt[1] == '%' then Matches(fmt[2..], args)
    else Matches(fmt[1..], args)
  }

  /** An unknown tag prints a notice and then itself; a '%' at the end prints the notice. */
  function Format(fmt: CString, args: seq<Arg>): string
    requires Matches(fmt, args)
    decreases |fmt|
  {
    if fmt == "" then ""
    else if fmt[0] != '%' then [fmt[0]] + Format(fmt[1..], args)
    else if |fmt| == 1 then UNSUPPORTED + Format(fmt[1..], args)
    else if IsTag(fmt[1]) then Converted(fmt[1], args[0]) + Format(fmt[2..], args[1..])
    else if fmt[1] == '%' then "%" + Format(fmt[2..], args)
    else UNSUPPORTED + Format(fmt[1..], args)
  }
}
