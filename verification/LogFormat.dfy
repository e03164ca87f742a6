/**
 The log formatter of lib/log/tfm_log_raw.c: characters collect in a 32-byte buffer that is
 handed to the serial output whenever it is full, and once more at the end.
 */
module LogFormat {
  import opened Common
  import opened Bytes
  import opened DigitText
  import opened LogText

  const PRINT_BUFF_SIZE: nat := 32
  const NUM_BUFF_SIZE: nat := 12

  function Concat(chunks: seq<string>): string {
    if chunks == [] then "" else Concat(chunks[..|chunks| - 1]) + chunks[|chunks| - 1]
  }

  ghost predicate AllFull(chunks: seq<string>) {
    forall i :: 0 <= i < |chunks| ==> |chunks[i]| == PRINT_BUFF_SIZE
  }

  lemma ConcatStep(chunks: seq<string>, c: string)
    ensures Concat(chunks + [c]) == Concat(chunks) + c
  {
    assert (chunks + [c])[..|chunks|] == chunks;
  }

  lemma {:induction false} ConcatFull(chunks: seq<string>)
    requires AllFull(chunks)
    ensures |Concat(chunks)| == PRINT_BUFF_SIZE * |chunks|
  {
    if chunks != [] {
      ConcatFull(chunks[..|chunks| - 1]);
    }
  }

  /** The characters of `s` before index `k`, last one first. */
  function Backwards(s: seq<char>, k: nat): string
    requires k <= |s|
  {
    if k == 0 then "" else [s[k - 1]] + Backwards(s, k - 1)
  }

  lemma {:induction false} BackwardsSame(s: seq<char>, t: seq<char>, k: nat)
    requires k <= |s| && k <= |t| && forall i :: 0 <= i < k ==> s[i] == t[i]
    ensures Backwards(s, k) == Backwards(t, k)
  {
    if k > 0 {
      BackwardsSame(s, t, k - 1);
    }
  }

  class Formatter {
    const buf: array<char>
    var pos: nat
    var chunks: seq<string>

    ghost predicate Valid()
      reads this
    {
      buf.Length == PRINT_BUFF_SIZE && pos < PRINT_BUFF_SIZE && AllFull(chunks)
    }

    /** Everything printed so far, emitted or still in the buffer. */
    ghost function Text(): string
      requires Valid()
      reads this, buf
    {
      Concat(chunks) + buf[..pos]
    }

    constructor ()
      ensures Valid() && fresh(buf) && Text() == "" && chunks == []
    {
      buf := new char[PRINT_BUFF_SIZE];
      pos := 0;
      chunks := [];
    }

    /** _tfm_flush_formatted_buffer */
    method Put(c: char)
      requires Valid()
      modifies this, buf
      ensures Valid() && Text() == old(Text()) + [c]
    {
      buf[pos] := c;
      assert buf[..pos + 1] == old(buf[..pos]) + [c];
      pos := pos + 1;
      if pos >= PRINT_BUFF_SIZE {
        assert buf[..pos] == buf[..];
        ConcatStep(chunks, buf[..]);
        pos := 0;
        chunks := chunks + [buf[..]];
      }
    }

    method PutString(s: string) returns (count: nat)
      requires Valid()
      modifies this, buf
      ensures Valid() && Text() == old(Text()) + s && count == |s|
    {
      count := 0;
      while count < |s|
        invariant Valid() && count <= |s| && Text() == old(Text()) + s[..count]
      {
        assert s[..count + 1] == s[..count] + [s[count]];
        Put(s[count]);
        count := count + 1;
      }
      assert s[..count] == s;
    }

    /** The second loop of the number output: the scratch buffer from its end to its start. */
    method PutBackwards(num: array<char>, n: nat) returns (count: nat)
      requires Valid() && n <= num.Length && num != buf
      modifies this, buf
      ensures Valid() && Text() == old(Text()) + Backwards(num[..], n) && count == n
    {
      count := 0;
      var k: nat := n;
      assert Text() + Backwards(num[..], k) == old(Text()) + Backwards(num[..], n);
      while k != 0
        invariant k <= n && count + k == n
        invariant Valid() && Text() + Backwards(num[..], k) == old(Text()) + Backwards(num[..], n)
      {
        k := k - 1;
        ghost var t, b := Text(), Backwards(num[..], k);
        Regroup(t, num[k], b);
        Put(num[k]);
        count := count + 1;
      }
      assert Text() + "" == Text();
    }

    method PutDigits(n: UInt32, base: nat, upper: bool) returns (count: nat)
      requires Valid() && (base == 10 || base == 16)
      modifies this, buf
      ensures Valid() && Text() == old(Text()) + Digits(n, base, upper) && count == |Digits(n, base, upper)|
    {
      var num := new char[NUM_BUFF_SIZE](_ => '\0');
      var k := CollectDigits(n, base, upper, num);
      BackwardsLength(num[..], k);
      count := PutBackwards(num, k);
    }

    /** _tfm_dec_num_output */
    method PutDecimal(v: UInt32, signed: bool) returns (count: nat)
      requires Valid()
      modifies this, buf
      ensures var s := if signed then SignedText(v) else Digits(v, 10, false);
              Valid() && count == |s| && Text() == old(Text()) + s
    {
      if signed && Signed(v) < 0 {
        Put('-');
        Regroup(old(Text()), '-', Digits(Magnitude(v), 10, false));
        count := PutDigits(Unsigned(-Signed(v)), 10, false);
        count := count + 1;
      } else {
        assert signed ==> SignedText(v) == Digits(v, 10, false);
        count := PutDigits(v, 10, false);
      }
    }
  }

  lemma Regroup(t: string, c: char, b: string)
    ensures t + ([c] + b) == t + [c] + b
  {
  }

  /** The first loop of the number output: digits into the scratch buffer, least significant first. */
  method CollectDigits(n: UInt32, base: nat, upper: bool, num: array<char>) returns (k: nat)
    requires (base == 10 || base == 16) && num.Length == NUM_BUFF_SIZE
    modifies num
    ensures k <= 10 && Backwards(num[..], k) == Digits(n, base, upper)
  {
    ghost var goal := Digits(n, base, upper);
    WordLength(n, upper);
    var number: nat := n;
    k := 0;
    while true
      invariant k < |goal| <= 10
      invariant goal == Digits(number, base, upper) + Backwards(num[..], k)
      decreases number
    {
      ghost var before := num[..];
      BackwardsLength(before, k);
      num[k] := DigitChar(number % base, upper);
      BackwardsSame(before, num[..], k);
      CollectStep(number, base, upper, num[k], Backwards(before, k));
      assert Backwards(num[..], k + 1) == [num[k]] + Backwards(num[..], k);
      k := k + 1;
      if number / base == 0 {
        return;
      }
      number := number / base;
      BackwardsLength(num[..], k);
    }
  }

  lemma CollectStep(number: nat, base: nat, upper: bool, c: char, b: string)
    requires base == 10 || base == 16
    requires c == DigitChar(number % base, upper)
    ensures Digits(number, base, upper) + b ==
            (if number / base == 0 then "" else Digits(number / base, base, upper)) + ([c] + b)
  {
  }

  lemma {:induction false} BackwardsLength(s: seq<char>, k: nat)
    requires k <= |s|
    ensures |Backwards(s, k)| == k
  {
    if k > 0 {
      BackwardsLength(s, k - 1);
    }
  }

  // ----- The format loop -----

  /** What printing one element of the format does: how far it gets and how many arguments it takes. */
  method PutElement(p: Formatter, fmt: CString, args: seq<Arg>) returns (count: nat, skip: nat, used: nat)
    requires p.Valid() && fmt != "" && Matches(fmt, args)
    modifies p, p.buf
    ensures p.Valid() && 0 < skip <= |fmt| && used <= |args|
    ensures Matches(fmt[skip..], args[used..])
    ensures p.Text() + Format(fmt[skip..], args[used..]) == old(p.Text()) + Format(fmt, args)
    ensures |p.Text()| == |old(p.Text())| + count
  {
    count, skip, used := 1, 1, 0;
    assert args[0..] == args;
    if fmt[0] != '%' {
      Regroup(p.Text(), fmt[0], Format(fmt[1..], args));
      p.Put(fmt[0]);
    } else if |fmt| > 1 && IsTag(fmt[1]) {
      ghost var t, c, r := p.Text(), Converted(fmt[1], args[0]), Format(fmt[2..], args[1..]);
      assert t + (c + r) == t + c + r;
      count := PutConverted(p, fmt[1], args[0]);
      skip, used := 2, 1;
    } else if |fmt| > 1 && fmt[1] == '%' {
      Regroup(p.Text(), '%', Format(fmt[2..], args));
      p.Put('%');
      skip := 2;
    } else {
      ghost var t, r := p.Text(), Format(fmt[1..], args);
      assert t + (UNSUPPORTED + r) == t + UNSUPPORTED + r;
      count := p.PutString(UNSUPPORTED);
    }
  }

  /** The switch on a known tag. */
  method PutConverted(p: Formatter, tag: char, a: Arg) returns (count: nat)
    requires p.Valid() && IsTag(tag) && Fits(tag, a)
    modifies p, p.buf
    ensures p.Valid() && p.Text() == old(p.Text()) + Converted(tag, a) && count == |Converted(tag, a)|
  {
    match tag
    case 'd' => count := p.PutDecimal(a.v, true);
    case 'i' => count := p.PutDecimal(a.v, true);
    case 'u' => count := p.PutDecimal(a.v, false);
    case 'x' => count := p.PutDigits(a.v, 16, false);
    case 'X' => count := p.PutDigits(a.v, 16, true);
    case 'p' =>
      var n := p.PutString("0x");
      ghost var t, d := old(p.Text()), Digits(a.v, 16, false);
      assert t + ("0x" + d) == t + "0x" + d;
      count := p.PutDigits(a.v, 16, false);
      count := count + n;
    case 's' => count := p.PutString(a.s);
    case _ =>
      p.Put((a.v % 256) as char);
      count := 1;
  }

  /** All chunks but the last are full, and the last one is not empty. */
  ghost predicate WellChunked(chunks: seq<string>) {
    chunks == [] ||
    (AllFull(chunks[..|chunks| - 1]) && 0 < |chunks[|chunks| - 1]| <= PRINT_BUFF_SIZE)
  }

  /** The last flush: what is left in the buffer, if anything, becomes the last chunk. */
  lemma LastChunk(full: seq<string>, rest: string)
    requires AllFull(full) && |rest| < PRINT_BUFF_SIZE
    ensures var chunks := if rest == "" then full else full + [rest];
            && WellChunked(chunks) && Concat(chunks) == Concat(full) + rest
            && |Concat(chunks)| % PRINT_BUFF_SIZE == |rest|
  {
    ConcatFull(full);
    ConcatStep(full, rest);
    assert (full + [rest])[..|full|] == full;
    assert Concat(full) + "" == Concat(full);
  }

  /**
   tfm_log_printf, with an output call that prints all it is given and returns that length.
   The header promises the number of characters printed; the final flush is counted again.
   */
  method Printf(fmt: CString, args: seq<Arg>) returns (count: nat, chunks: seq<string>)
    requires Matches(fmt, args)
    ensures Concat(chunks) == Format(fmt, args)
    ensures WellChunked(chunks)
    ensures forall i :: 0 <= i < |chunks| - 1 ==> |chunks[i]| == 32
    ensures count == |Format(fmt, args)| + |Format(fmt, args)| % 32
  {
    var p := new Formatter();
    count := 0;
    var f, rest := fmt, args;
    assert "" + Format(f, rest) == Format(fmt, args);
    while f != ""
      invariant p.Valid() && fresh(p) && fresh(p.buf) && Matches(f, rest)
      invariant p.Text() + Format(f, rest) == Format(fmt, args)
      invariant count == |p.Text()|
      decreases |f|
    {
      var c, skip, used := PutElement(p, f, rest);
      count := count + c;
      f, rest := f[skip..], rest[used..];
    }
    assert p.Text() + "" == p.Text();
    chunks := p.chunks;
    LastChunk(chunks, p.buf[..p.pos]);
    if p.pos != 0 {
      chunks := chunks + [p.buf[..p.pos]];
      count := count + p.pos;
    }
  }
}
