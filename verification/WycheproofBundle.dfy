/**
 The Wycheproof test bundle: wp_ec_parser.py writes length-prefixed records from the
 stream of key, message, signature and result lines; wp_ecdsa_run_test_bin reads them
 back on the target, carries the current key forward and counts wrong verdicts.
 */
module WycheproofBundle {
  import opened Common
  import opened Bytes
  import opened DerSignature

  const PSA_ERROR_INVALID_SIGNATURE: int := -149

  /** r and s of a 384-bit curve. */
  const RS_WIDTH: nat := 96

  // ----- The writer -----

  /** One line of interest in the test file, its hexadecimal content decoded. */
  datatype Event = Uncompressed(key: Blob) | Msg(msg: Blob) | Sig(sig: Blob) | Result(invalid: bool)

  function Status(invalid: bool): int {
    if invalid then PSA_ERROR_INVALID_SIGNATURE else PSA_SUCCESS
  }

  /** The bytes written for an event; a record that does not start with a key gets a key length of 0. */
  function Emit(e: Event, checkKey: bool): seq<byte> {
    match e
    case Uncompressed(key) => Prefixed(key)
    case Msg(msg) => (if checkKey then Zeros(4) else []) + Prefixed(msg)
    case Sig(sig) => (if checkKey then Zeros(4) else []) + Prefixed(sig)
    case Result(invalid) => LE32(Unsigned(Status(invalid)))
  }

  function Written(events: seq<Event>, checkKey: bool): seq<byte> {
    if events == [] then []
    else Emit(events[0], checkKey) + Written(events[1..], events[0].Result?)
  }

  method WriteEvent(out: seq<byte>, checkKey: bool, e: Event) returns (out': seq<byte>, checkKey': bool)
    ensures out' == out + Emit(e, checkKey) && checkKey' == e.Result?
    ensures e.Result? ==> out' == out + if e.invalid then [0x6B, 0xFF, 0xFF, 0xFF] else [0, 0, 0, 0]
  {
    assert Unsigned(-149) == 0xFFFF_FF6B && Unsigned(0) == 0;
    match e
    case Result(invalid) =>
      out' := out + LE32(Unsigned(if invalid then PSA_ERROR_INVALID_SIGNATURE else 0));
      checkKey' := true;
    case Uncompressed(key) =>
      out' := WriteBlob(out, key);
      checkKey' := false;
    case Msg(msg) =>
      out' := WriteUnkeyed(out, checkKey, msg);
      checkKey' := false;
    case Sig(sig) =>
      out' := WriteUnkeyed(out, checkKey, sig);
      checkKey' := false;
  }

  method WriteUnkeyed(out: seq<byte>, checkKey: bool, data: Blob) returns (out': seq<byte>)
    ensures out' == out + ((if checkKey then Zeros(4) else []) + Prefixed(data))
  {
    out' := if checkKey then out + Zeros(4) else out;
    out' := WriteBlob(out', data);
  }

  method WriteBlob(out: seq<byte>, data: Blob) returns (out': seq<byte>)
    ensures out' == out + Prefixed(data)
  {
    out' := out + LE32(|data|);
    out' := out' + data;
  }

  /** parse_wp_ecdsa, from the lines on */
  method WriteBundle(events: seq<Event>) returns (out: seq<byte>)
    ensures out == Written(events, true)
  {
    out := [];
    var checkKey := true;
    assert events[0..] == events;
    for i := 0 to |events|
      invariant Written(events, true) == out + Written(events[i..], checkKey)
    {
      var e := events[i];
      ghost var rest := Written(events[i + 1..], e.Result?);
      assert events[i..][1..] == events[i + 1..];
      assert out + (Emit(e, checkKey) + rest) == out + Emit(e, checkKey) + rest;
      out, checkKey := WriteEvent(out, checkKey, e);
    }
  }

  // ----- The reader -----

  /** A record as the reader finds it at some offset. */
  datatype Record = Record(key: Blob, msg: Blob, sigAt: nat, sig: Blob, expected: int, next: nat)

  function RecordAt(mem: Memory, p: nat): (r: Record)
    ensures r.next == p + 16 + |r.key| + |r.msg| + |r.sig|
  {
    var q := p + 4 + Word32(mem, p);
    var q' := q + 4 + Word32(mem, q);
    var end := q' + 4 + Word32(mem, q');
    Record(Read(mem, p + 4, Word32(mem, p)), Read(mem, q + 4, Word32(mem, q)),
           q' + 4, Read(mem, q' + 4, Word32(mem, q')),
           Signed(Word32(mem, end)), end + 4)
  }

  datatype Hashed = HashFailed | Hashed(hash: seq<byte>)

  /** The crypto service, any behaviour; calls are numbered so that equal calls may differ. */
  datatype Crypto = Crypto(
    imports: (nat, Blob) -> bool,
    destroys: nat -> bool,
    hash: (nat, Blob) -> Hashed,
    verify: (nat, Option<Blob>, seq<byte>, seq<byte>) -> int)

  /** What a test is about: the key in force, message, parsed signature, expected status. */
  datatype Case = Case(key: Option<Blob>, msg: Blob, parsed: Parsed, expected: int)

  datatype Judged = Broken | Judged(status: int)

  function Judge(crypto: Crypto, i: nat, c: Case): Judged {
    match c.parsed
    case Rejected => Judged(PSA_ERROR_INVALID_SIGNATURE)
    case Accepted(rs) =>
      match crypto.hash(i, c.msg)
      case HashFailed => Broken
      case Hashed(h) =>
        var v := crypto.verify(i, c.key, h, rs);
        if v == PSA_SUCCESS || v == PSA_ERROR_INVALID_SIGNATURE then Judged(v) else Broken
  }

  datatype KeyEvent = Imported(key: Blob) | Destroyed

  datatype Outcome = Completed(failures: nat, total: nat) | SizeMax | AssertFailed

  /** The run's counters, the live key, and every key operation so far. */
  datatype State = State(live: Option<Blob>, failures: nat, total: nat, log: seq<KeyEvent>)

  const START := State(None, 0, 0, [])

  datatype KeyStep = KeyStep(ok: bool, st: State)

  /** A record with a key: the live key is destroyed, the new one imported. */
  function TakeKey(crypto: Crypto, st: State, key: Blob): KeyStep {
    if key == [] then KeyStep(true, st)
    else if st.live.Some? && !crypto.destroys(st.total) then KeyStep(false, st)
    else
      var log := if st.live.Some? then st.log + [Destroyed] else st.log;
      if crypto.imports(st.total, key) then KeyStep(true, st.(live := Some(key), log := log + [Imported(key)]))
      else KeyStep(false, st.(live := None, log := log))
  }

  function CaseOf(mem: Memory, r: Record, live: Option<Blob>): Case {
    Case(live, r.msg, Parse(From(mem, r.sigAt), |r.sig|, RS_WIDTH), r.expected)
  }

  datatype Ran = Ran(outcome: Outcome, log: seq<KeyEvent>)

  function Run(crypto: Crypto, mem: Memory, p: nat, end: nat, st: State): Ran
    requires p <= end
    decreases end - p
  {
    if p == end then
      if st.live.None? then Ran(Completed(st.failures, st.total), st.log)
      else if crypto.destroys(st.total) then Ran(Completed(st.failures, st.total), st.log + [Destroyed])
      else Ran(SizeMax, st.log)
    else
      var r := RecordAt(mem, p);
      var k := TakeKey(crypto, st, r.key);
      if !k.ok then Ran(SizeMax, k.st.log)
      else
        var j := Judge(crypto, st.total, CaseOf(mem, r, k.st.live));
        if j.Broken? then Ran(SizeMax, k.st.log)
        else if r.next > end then Ran(AssertFailed, k.st.log)
        else Run(crypto, mem, r.next, end, Count(k.st, j.status != r.expected))
  }

  function Count(st: State, wrong: bool): State {
    st.(failures := st.failures + (if wrong then 1 else 0), total := st.total + 1)
  }

  /** The moving pointer of one iteration; the bundle itself does not change under it. */
  method ReadRecord(mem: Memory, test: nat) returns (r: Record)
    ensures r == RecordAt(mem, test)
  {
    var key, keyEnd := ReadBlob(mem, test);
    var msg, msgEnd := ReadBlob(mem, keyEnd);
    var sig, sigEnd := ReadBlob(mem, msgEnd);
    r := Record(key, msg, msgEnd + 4, sig, Signed(Word32(mem, sigEnd)), sigEnd + 4);
  }

  method ReadBlob(mem: Memory, ptr: nat) returns (b: Blob, ptr': nat)
    ensures b == Read(mem, ptr + 4, Word32(mem, ptr)) && ptr' == ptr + 4 + Word32(mem, ptr)
  {
    var len := Word32(mem, ptr);
    ptr' := ptr + 4;
    b := Read(mem, ptr', len);
    ptr' := ptr' + len;
  }

  method ChangeKey(crypto: Crypto, st: State, key: Blob) returns (ok: bool, st': State)
    ensures KeyStep(ok, st') == TakeKey(crypto, st, key)
  {
    st' := st;
    if |key| != 0 {
      if st'.live.Some? {
        if !crypto.destroys(st.total) {
          return false, st';
        }
        st' := st'.(live := None, log := st'.log + [Destroyed]);
      }
      if !crypto.imports(st.total, key) {
        return false, st';
      }
      st' := st'.(live := Some(key), log := st'.log + [Imported(key)]);
    }
    return true, st';
  }

  method CheckSignature(crypto: Crypto, i: nat, mem: Memory, r: Record, live: Option<Blob>, rs: array<byte>)
    returns (j: Judged)
    requires rs.Length == RS_WIDTH
    modifies rs
    ensures j == Judge(crypto, i, CaseOf(mem, r, live))
  {
    var valid := ParseSignature(From(mem, r.sigAt), |r.sig|, rs);
    if !valid {
      return Judged(PSA_ERROR_INVALID_SIGNATURE);
    }
    var h := crypto.hash(i, r.msg);
    if h.HashFailed? {
      return Broken;
    }
    var status := crypto.verify(i, live, h.hash, rs[..]);
    if status != PSA_SUCCESS && status != PSA_ERROR_INVALID_SIGNATURE {
      return Broken;
    }
    return Judged(status);
  }

  /** wp_ecdsa_run_test_bin on the bundle of `binSize` bytes at the start of `mem` */
  method RunTestBin(crypto: Crypto, mem: Memory, binSize: nat) returns (ran: Ran)
    ensures ran == Run(crypto, mem, 0, binSize, START)
  {
    var rs := new byte[RS_WIDTH];
    var st := START;
    var test: nat, remaining: nat := 0, binSize;
    while remaining != 0
      invariant test + remaining == binSize
      invariant Run(crypto, mem, test, binSize, st) == Run(crypto, mem, 0, binSize, START)
      decreases remaining
    {
      var r := ReadRecord(mem, test);
      var total, ok := st.total, true;
      ok, st := ChangeKey(crypto, st, r.key);
      if !ok {
        return Ran(SizeMax, st.log);
      }
      var j := CheckSignature(crypto, total, mem, r, st.live, rs);
      if j.Broken? {
        return Ran(SizeMax, st.log);
      }
      st := Count(st, r.expected != j.status);
      if remaining < r.next - test {
        return Ran(AssertFailed, st.log);
      }
      remaining := remaining - (r.next - test);
      test := r.next;
    }
    if st.live.Some? {
      if !crypto.destroys(st.total) {
        return Ran(SizeMax, st.log);
      }
      st := st.(live := None, log := st.log + [Destroyed]);
    }
    return Ran(Completed(st.failures, st.total), st.log);
  }
}
