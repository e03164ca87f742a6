/**
 Properties of the Wycheproof bundle: what a completed run of the reader means on any
 bundle, what it does with keys on any run, and that reading a written bundle gives
 back the tests, each with the key of its own group.
 */
module BundleTheorems {
  import opened Common
  import opened Bytes
  import opened DerSignature
  import opened WycheproofBundle

  // ----- Any bundle, any run -----

  /** The records from `p` on, as long as one starts before `end`. */
  function Records(mem: Memory, p: nat, end: nat): seq<Record>
    decreases end - p
  {
    if p >= end then [] else [RecordAt(mem, p)] + Records(mem, RecordAt(mem, p).next, end)
  }

  /** The records fill the bundle without a gap or an overrun. */
  predicate Tiles(mem: Memory, p: nat, end: nat)
    decreases end - p
  {
    p == end || (p < end && Tiles(mem, RecordAt(mem, p).next, end))
  }

  function Carried(live: Option<Blob>, key: Blob): Option<Blob> {
    if key == [] then live else Some(key)
  }

  function Cases(mem: Memory, rs: seq<Record>, live: Option<Blob>): (cs: seq<Case>)
    ensures |cs| == |rs|
  {
    if rs == [] then []
    else
      var l := Carried(live, rs[0].key);
      [CaseOf(mem, rs[0], l)] + Cases(mem, rs[1..], l)
  }

  /** Number of cases, numbered from `i`, whose verdict is not the expected one. */
  function Wrong(crypto: Crypto, i: nat, cs: seq<Case>): nat
    decreases |cs|
  {
    if cs == [] then 0
    else (if Judge(crypto, i, cs[0]) == Judged(cs[0].expected) then 0 else 1) + Wrong(crypto, i + 1, cs[1..])
  }

  function Consumed(rs: seq<Record>): nat {
    if rs == [] then 0 else 16 + |rs[0].key| + |rs[0].msg| + |rs[0].sig| + Consumed(rs[1..])
  }

  /** The tiling consumes every byte, at least 16 for each record. */
  lemma {:induction false} TilesConsume(mem: Memory, p: nat, end: nat)
    requires Tiles(mem, p, end)
    ensures p <= end && Consumed(Records(mem, p, end)) == end - p >= 16 * |Records(mem, p, end)|
    decreases end - p
  {
    if p < end {
      TilesConsume(mem, RecordAt(mem, p).next, end);
    }
  }

  /** A completed run has consumed exactly the bundle. */
  lemma {:induction false} CompletedTiles(crypto: Crypto, mem: Memory, p: nat, end: nat, st: State)
    requires p <= end && Run(crypto, mem, p, end, st).outcome.Completed?
    ensures Tiles(mem, p, end)
    decreases end - p
  {
    if p < end {
      RunStep(crypto, mem, p, end, st);
      CompletedTiles(crypto, mem, RecordAt(mem, p).next, end, Next(crypto, mem, p, st));
    }
  }

  lemma {:induction false} CompletedCount(
    crypto: Crypto, mem: Memory, p: nat, end: nat, st: State, cs: seq<Case>)
    requires p <= end && Run(crypto, mem, p, end, st).outcome.Completed?
    requires cs == Cases(mem, Records(mem, p, end), st.live)
    ensures Run(crypto, mem, p, end, st).outcome ==
            Completed(st.failures + Wrong(crypto, st.total, cs), st.total + |cs|)
    decreases end - p
  {
    if p < end {
      RunStep(crypto, mem, p, end, st);
      CasesFirst(mem, p, end, st.live);
      WrongFirst(crypto, st.total, cs);
      CompletedCount(crypto, mem, RecordAt(mem, p).next, end, Next(crypto, mem, p, st), cs[1..]);
    }
  }

  /**
   A completed run returns the number of records whose verdict differs from the stored status
   and the number of all records, and it has consumed exactly the bundle.
   */
  lemma CompletedMeaning(crypto: Crypto, mem: Memory, p: nat, end: nat, st: State, cs: seq<Case>)
    requires p <= end && Run(crypto, mem, p, end, st).outcome.Completed?
    requires cs == Cases(mem, Records(mem, p, end), st.live)
    ensures Tiles(mem, p, end)
    ensures Run(crypto, mem, p, end, st).outcome ==
            Completed(st.failures + Wrong(crypto, st.total, cs), st.total + |cs|)
  {
    CompletedTiles(crypto, mem, p, end, st);
    CompletedCount(crypto, mem, p, end, st, cs);
  }

  lemma WrongFirst(crypto: Crypto, i: nat, cs: seq<Case>)
    requires cs != []
    ensures Wrong(crypto, i, cs) ==
            (if Judge(crypto, i, cs[0]) == Judged(cs[0].expected) then 0 else 1) + Wrong(crypto, i + 1, cs[1..])
  {
  }

  /** The state after the record at `p`, when nothing goes wrong. */
  function Next(crypto: Crypto, mem: Memory, p: nat, st: State): State {
    var r := RecordAt(mem, p);
    var live := Carried(st.live, r.key);
    var right := Judge(crypto, st.total, CaseOf(mem, r, live)) == Judged(r.expected);
    Count(TakeKey(crypto, st, r.key).st, !right)
  }

  lemma RunStep(crypto: Crypto, mem: Memory, p: nat, end: nat, st: State)
    requires p < end && Run(crypto, mem, p, end, st).outcome.Completed?
    ensures var r, n := RecordAt(mem, p), Next(crypto, mem, p, st);
            && r.next <= end && Run(crypto, mem, p, end, st) == Run(crypto, mem, r.next, end, n)
            && n.live == Carried(st.live, r.key) && n.total == st.total + 1
            && n.failures == st.failures +
               if Judge(crypto, st.total, CaseOf(mem, r, n.live)) == Judged(r.expected) then 0 else 1
  {
    var r := RecordAt(mem, p);
    var k := TakeKey(crypto, st, r.key);
    assert k.ok && k.st.live == Carried(st.live, r.key);
  }

  lemma CasesFirst(mem: Memory, p: nat, end: nat, live: Option<Blob>)
    requires p < end
    ensures var r := RecordAt(mem, p);
            var l := Carried(live, r.key);
            var cs := Cases(mem, Records(mem, p, end), live);
            cs != [] && cs[0] == CaseOf(mem, r, l) && cs[1..] == Cases(mem, Records(mem, r.next, end), l)
  {
    var rs := Records(mem, p, end);
    assert rs[0] == RecordAt(mem, p) && rs[1..] == Records(mem, RecordAt(mem, p).next, end);
  }

  /** Keys imported and not destroyed. */
  function Live(log: seq<KeyEvent>): int {
    if log == [] then 0
    else Live(log[..|log| - 1]) + (if log[|log| - 1].Imported? then 1 else -1)
  }

  ghost predicate OneAtMost(log: seq<KeyEvent>) {
    forall n :: 0 <= n <= |log| ==> 0 <= Live(log[..n]) <= 1
  }

  ghost predicate KeysInOrder(st: State) {
    OneAtMost(st.log) && Live(st.log) == if st.live.Some? then 1 else 0
  }

  lemma LogStep(log: seq<KeyEvent>, e: KeyEvent)
    requires OneAtMost(log) && Live(log) == (if e.Imported? then 0 else 1)
    ensures OneAtMost(log + [e]) && Live(log + [e]) == if e.Imported? then 1 else 0
  {
    var l := log + [e];
    assert l[..|log|] == log && l[..|l|] == l;
    forall n | 0 <= n <= |l| ensures 0 <= Live(l[..n]) <= 1 {
      if n <= |log| {
        assert l[..n] == log[..n];
      }
    }
  }

  lemma TakeKeyKeeps(crypto: Crypto, st: State, key: Blob)
    requires KeysInOrder(st)
    ensures KeysInOrder(TakeKey(crypto, st, key).st)
  {
    if key != [] && (st.live.None? || crypto.destroys(st.total)) {
      var log := st.log;
      if st.live.Some? {
        LogStep(log, Destroyed);
        log := log + [Destroyed];
      }
      LogStep(log, Imported(key));
    }
  }

  /** On every run at most one key is ever live; a completed run has destroyed every key it imported. */
  lemma {:induction false} KeysBalanced(crypto: Crypto, mem: Memory, p: nat, end: nat, st: State)
    requires p <= end && KeysInOrder(st)
    ensures var ran := Run(crypto, mem, p, end, st);
            OneAtMost(ran.log) && (ran.outcome.Completed? ==> Live(ran.log) == 0)
    decreases end - p
  {
    if p == end {
      if st.live.Some? {
        LogStep(st.log, Destroyed);
      }
    } else {
      var r := RecordAt(mem, p);
      var k := TakeKey(crypto, st, r.key);
      TakeKeyKeeps(crypto, st, r.key);
      if k.ok {
        var j := Judge(crypto, st.total, CaseOf(mem, r, k.st.live));
        if j.Judged? && r.next <= end {
          KeysBalanced(crypto, mem, r.next, end, Count(k.st, j.status != r.expected));
        }
      }
    }
  }

  /** A crypto service that performs every operation and verifies with one of the two verdicts. */
  ghost predicate Steady(crypto: Crypto) {
    && (forall i, k :: crypto.imports(i, k))
    && (forall i :: crypto.destroys(i))
    && (forall i, m :: crypto.hash(i, m).Hashed?)
    && (forall i, k, h, rs :: crypto.verify(i, k, h, rs) in {PSA_SUCCESS, PSA_ERROR_INVALID_SIGNATURE})
  }

  /** With such a service the run completes iff the records tile the bundle. */
  lemma {:induction false} SteadyCompletes(crypto: Crypto, mem: Memory, p: nat, end: nat, st: State)
    requires p <= end && Steady(crypto)
    ensures Run(crypto, mem, p, end, st).outcome.Completed? <==> Tiles(mem, p, end)
    decreases end - p
  {
    if p < end {
      var r := RecordAt(mem, p);
      var k := TakeKey(crypto, st, r.key);
      var j := Judge(crypto, st.total, CaseOf(mem, r, k.st.live));
      assert k.ok && j.Judged?;
      if r.next <= end {
        SteadyCompletes(crypto, mem, r.next, end, Count(k.st, j.status != r.expected));
      }
    }
  }

  // ----- Written bundles -----

  datatype Test = Test(msg: Blob, sig: Blob, invalid: bool)

  datatype Group = Group(key: Blob, tests: seq<Test>)

  function TestEvents(ts: seq<Test>): seq<Event> {
    if ts == [] then []
    else [Msg(ts[0].msg), Sig(ts[0].sig), Result(ts[0].invalid)] + TestEvents(ts[1..])
  }

  /** The lines of a test file: for each group its key, then its tests. */
  function Events(gs: seq<Group>): seq<Event> {
    if gs == [] then [] else [Uncompressed(gs[0].key)] + TestEvents(gs[0].tests) + Events(gs[1..])
  }

  /** A signature on its own: nothing but zeros behind it. */
  function Detached(sig: Blob): Memory {
    (i: nat) => if i < |sig| then sig[i] else 0
  }

  /** A test with the key it belongs to. */
  datatype Paired = Paired(key: Option<Blob>, msg: Blob, sig: Blob, expected: int)

  function PairedTests(key: Option<Blob>, ts: seq<Test>): seq<Paired> {
    if ts == [] then []
    else [Paired(key, ts[0].msg, ts[0].sig, Expected(ts[0].invalid))] + PairedTests(key, ts[1..])
  }

  /** The tests of all groups in order, each with its own group's key. */
  function AllTests(gs: seq<Group>): seq<Paired> {
    if gs == [] then [] else PairedTests(Some(gs[0].key), gs[0].tests) + AllTests(gs[1..])
  }

  /** The tests as the reader pairs them: an empty key leaves the one before it in force. */
  function ReadTests(live: Option<Blob>, gs: seq<Group>): seq<Paired>
    decreases |gs|
  {
    if gs == [] then []
    else
      var l := Carried(live, gs[0].key);
      PairedTests(l, gs[0].tests) + ReadTests(l, gs[1..])
  }

  /** The case a test stands for, its signature parsed on its own. */
  function CaseFrom(t: Paired): Case {
    Case(t.key, t.msg, Parse(Detached(t.sig), |t.sig|, RS_WIDTH), t.expected)
  }

  function CasesFrom(ts: seq<Paired>): (cs: seq<Case>)
    ensures |cs| == |ts|
  {
    if ts == [] then [] else [CaseFrom(ts[0])] + CasesFrom(ts[1..])
  }

  /** The stored status of a test. */
  function Expected(invalid: bool): int {
    if invalid then -149 else 0
  }

  /** The same as a word, least significant byte first. */
  function ResultWord(invalid: bool): (s: seq<byte>)
    ensures |s| == 4
  {
    if invalid then [0x6B, 0xFF, 0xFF, 0xFF] else [0, 0, 0, 0]
  }

  lemma ResultWordMeaning(invalid: bool)
    ensures ResultWord(invalid) == LE32(Unsigned(Expected(invalid))) == Emit(Result(invalid), false)
    ensures -0x8000_0000 <= Expected(invalid) < 0x8000_0000
  {
    assert Unsigned(-149) == 0xFFFF_FF6B && Unsigned(0) == 0;
  }

  function RowBytes(key: Blob, t: Test): (s: seq<byte>)
    ensures |s| == 16 + |key| + |t.msg| + |t.sig|
  {
    Prefixed(key) + Prefixed(t.msg) + Prefixed(t.sig) + ResultWord(t.invalid)
  }

  // Reading one record back

  lemma HoldsSplit(mem: Memory, at: nat, a: seq<byte>, b: seq<byte>)
    requires Holds(mem, at, a + b)
    ensures Holds(mem, at, a) && Holds(mem, at + |a|, b)
  {
    assert forall i :: 0 <= i < |a| ==> (a + b)[i] == a[i];
    forall i | 0 <= i < |b| ensures mem(at + |a| + i) == b[i] {
      assert mem(at + (|a| + i)) == (a + b)[|a| + i];
    }
  }

  lemma WordRead(mem: Memory, at: nat, v: UInt32)
    requires Holds(mem, at, LE32(v))
    ensures Word32(mem, at) == v
  {
    WordLE32(v);
    Word32Bytes(mem, at);
    assert mem(at + 0) == LE32(v)[0] && mem(at + 1) == LE32(v)[1];
    assert mem(at + 2) == LE32(v)[2] && mem(at + 3) == LE32(v)[3];
  }

  /** A length word and the bytes it announces. */
  ghost predicate Stored(mem: Memory, at: nat, b: Blob) {
    Word32(mem, at) == |b| && Read(mem, at + 4, |b|) == b
  }

  lemma BlobRead(mem: Memory, at: nat, b: Blob)
    requires Holds(mem, at, Prefixed(b))
    ensures Stored(mem, at, b)
  {
    HoldsSplit(mem, at, LE32(|b|), b);
    WordRead(mem, at, |b|);
    forall i | 0 <= i < |b| ensures Read(mem, at + 4, |b|)[i] == b[i] {
      assert mem(at + |LE32(|b|)| + i) == b[i];
    }
  }

  lemma StatusRead(mem: Memory, at: nat, invalid: bool)
    requires Holds(mem, at, ResultWord(invalid))
    ensures Signed(Word32(mem, at)) == Expected(invalid)
  {
    ResultWordMeaning(invalid);
    WordRead(mem, at, Unsigned(Expected(invalid)));
    SignedUnsigned(Expected(invalid));
  }

  /** The parts of a stored row. */
  lemma RowParts(mem: Memory, p: nat, key: Blob, t: Test)
    requires Holds(mem, p, RowBytes(key, t))
    ensures Stored(mem, p, key) && Stored(mem, p + 4 + |key|, t.msg)
    ensures Stored(mem, p + 8 + |key| + |t.msg|, t.sig)
    ensures Signed(Word32(mem, p + 12 + |key| + |t.msg| + |t.sig|)) == Expected(t.invalid)
  {
    var k, m, s, w := Prefixed(key), Prefixed(t.msg), Prefixed(t.sig), ResultWord(t.invalid);
    RowSplit(mem, p, k, m, s, w);
    var msgAt, sigAt, end := p + 4 + |key|, p + 8 + |key| + |t.msg|, p + 12 + |key| + |t.msg| + |t.sig|;
    assert p + |k| == msgAt && p + |k| + |m| == sigAt && p + |k| + |m| + |s| == end;
    BlobRead(mem, p, key);
    BlobRead(mem, msgAt, t.msg);
    BlobRead(mem, sigAt, t.sig);
    StatusRead(mem, end, t.invalid);
  }

  lemma RecordRead(mem: Memory, p: nat, key: Blob, t: Test)
    requires Holds(mem, p, RowBytes(key, t))
    ensures RecordAt(mem, p) == Record(key, t.msg, p + 12 + |key| + |t.msg|, t.sig, Expected(t.invalid),
                                       p + 16 + |key| + |t.msg| + |t.sig|)
  {
    RowParts(mem, p, key, t);
    var msgAt, sigAt := p + 4 + |key|, p + 8 + |key| + |t.msg|;
    FieldsRead(mem, p, key, msgAt, t.msg, sigAt, t.sig, sigAt + 4 + |t.sig|);
  }

  lemma FieldsRead(mem: Memory, p: nat, key: Blob, msgAt: nat, msg: Blob, sigAt: nat, sig: Blob, end: nat)
    requires msgAt == p + 4 + |key| && sigAt == msgAt + 4 + |msg| && end == sigAt + 4 + |sig|
    requires Stored(mem, p, key) && Stored(mem, msgAt, msg) && Stored(mem, sigAt, sig)
    ensures RecordAt(mem, p) == Record(key, msg, sigAt + 4, sig, Signed(Word32(mem, end)), end + 4)
  {
  }

  /** The stored status follows the signature, and is never a zero byte before one with the top bit. */
  lemma StatusBehind(mem: Memory, p: nat, key: Blob, t: Test)
    requires Holds(mem, p, RowBytes(key, t))
    ensures var at := p + 12 + |key| + |t.msg| + |t.sig|; !(mem(at) == 0 && mem(at + 1) >= 0x80)
  {
    var k, m, s, w := Prefixed(key), Prefixed(t.msg), Prefixed(t.sig), ResultWord(t.invalid);
    RowSplit(mem, p, k, m, s, w);
    var at := p + |k| + |m| + |s|;
    assert mem(at + 0) == w[0] && mem(at + 1) == w[1];
  }

  lemma RowSplit(mem: Memory, p: nat, k: seq<byte>, m: seq<byte>, s: seq<byte>, w: seq<byte>)
    requires Holds(mem, p, k + m + s + w)
    ensures Holds(mem, p, k) && Holds(mem, p + |k|, m)
    ensures Holds(mem, p + |k| + |m|, s) && Holds(mem, p + |k| + |m| + |s|, w)
  {
    HoldsSplit(mem, p, k + m + s, w);
    HoldsSplit(mem, p, k + m, s);
    HoldsSplit(mem, p, k, m);
  }

  // From events to rows

  lemma WrittenFirst(e: Event, rest: seq<Event>, checkKey: bool)
    ensures Written([e] + rest, checkKey) == Emit(e, checkKey) + Written(rest, e.Result?)
  {
    assert ([e] + rest)[1..] == rest;
  }

  /** A test after its record's key part has been written. */
  function Tail(t: Test): seq<byte> {
    Prefixed(t.msg) + Prefixed(t.sig) + ResultWord(t.invalid)
  }

  lemma WrittenTail(t: Test, rest: seq<Event>, checkKey: bool)
    ensures Written([Msg(t.msg), Sig(t.sig), Result(t.invalid)] + rest, checkKey) ==
            (if checkKey then Zeros(4) else []) + (Tail(t) + Written(rest, true))
  {
    var e3 := [Result(t.invalid)] + rest;
    var e2 := [Sig(t.sig)] + e3;
    assert [Msg(t.msg), Sig(t.sig), Result(t.invalid)] + rest == [Msg(t.msg)] + e2;
    WrittenFirst(Msg(t.msg), e2, checkKey);
    WrittenFirst(Sig(t.sig), e3, false);
    WrittenFirst(Result(t.invalid), rest, false);
    ResultWordMeaning(t.invalid);
    Assoc(if checkKey then Zeros(4) else [], Prefixed(t.msg), Prefixed(t.sig),
          ResultWord(t.invalid), Written(rest, true));
  }

  lemma Assoc(z: seq<byte>, m: seq<byte>, s: seq<byte>, w: seq<byte>, r: seq<byte>)
    ensures (z + m) + (([] + s) + (w + r)) == z + ((m + s + w) + r)
  {
  }

  lemma RowTail(key: Blob, t: Test)
    ensures RowBytes(key, t) == Prefixed(key) + Tail(t)
    ensures RowBytes([], t) == Zeros(4) + Tail(t)
  {
    assert Prefixed([]) == LE32(0) + [] == Zeros(4);
  }

  function TestsBytes(ts: seq<Test>): seq<byte> {
    if ts == [] then [] else RowBytes([], ts[0]) + TestsBytes(ts[1..])
  }

  /** The first test of a group carries the key, the others a key length of zero. */
  function GroupBytes(g: Group): seq<byte>
    requires g.tests != []
  {
    RowBytes(g.key, g.tests[0]) + TestsBytes(g.tests[1..])
  }

  /** Every group has a test. */
  ghost predicate Proper(gs: seq<Group>) {
    forall i :: 0 <= i < |gs| ==> gs[i].tests != []
  }

  /** Every group has a key. */
  ghost predicate Keyed(gs: seq<Group>) {
    forall i :: 0 <= i < |gs| ==> gs[i].key != []
  }

  function BundleBytes(gs: seq<Group>): seq<byte>
    requires Proper(gs)
  {
    if gs == [] then [] else GroupBytes(gs[0]) + BundleBytes(gs[1..])
  }

  function ThreeEvents(t: Test): seq<Event> {
    [Msg(t.msg), Sig(t.sig), Result(t.invalid)]
  }

  lemma EventsSplit(pre: seq<Event>, a: seq<Event>, b: seq<Event>, rest: seq<Event>)
    ensures (a + b) + rest == a + (b + rest)
    ensures pre + (a + b) + rest == pre + (a + (b + rest))
  {
  }

  lemma BytesSplit(z: seq<byte>, t: seq<byte>, u: seq<byte>, r: seq<byte>)
    ensures z + (t + (u + r)) == (z + t) + u + r
    ensures [] + z == z
  {
  }

  lemma {:induction false} WrittenTests(ts: seq<Test>, rest: seq<Event>)
    ensures Written(TestEvents(ts) + rest, true) == TestsBytes(ts) + Written(rest, true)
    decreases |ts|
  {
    if ts == [] {
      assert TestEvents(ts) + rest == rest;
    } else {
      var t, more := ts[0], TestEvents(ts[1..]);
      EventsSplit([], ThreeEvents(t), more, rest);
      assert TestEvents(ts) + rest == ThreeEvents(t) + (more + rest);
      WrittenTail(t, more + rest, true);
      WrittenTests(ts[1..], rest);
      TestsFirst(ts, Written(rest, true));
    }
  }

  lemma TestsFirst(ts: seq<Test>, r: seq<byte>)
    requires ts != []
    ensures Zeros(4) + (Tail(ts[0]) + (TestsBytes(ts[1..]) + r)) == TestsBytes(ts) + r
  {
    RowTail([], ts[0]);
    BytesSplit(Zeros(4), Tail(ts[0]), TestsBytes(ts[1..]), r);
  }

  lemma WrittenGroup(g: Group, rest: seq<Event>)
    requires g.tests != []
    ensures Written([Uncompressed(g.key)] + TestEvents(g.tests) + rest, true) == GroupBytes(g) + Written(rest, true)
  {
    var t, more := g.tests[0], TestEvents(g.tests[1..]);
    EventsSplit([Uncompressed(g.key)], ThreeEvents(t), more, rest);
    assert TestEvents(g.tests) == ThreeEvents(t) + more;
    WrittenFirst(Uncompressed(g.key), ThreeEvents(t) + (more + rest), true);
    WrittenTail(t, more + rest, false);
    WrittenTests(g.tests[1..], rest);
    GroupFirst(g, Written(rest, true));
  }

  lemma GroupFirst(g: Group, r: seq<byte>)
    requires g.tests != []
    ensures Prefixed(g.key) + ([] + (Tail(g.tests[0]) + (TestsBytes(g.tests[1..]) + r))) == GroupBytes(g) + r
  {
    RowTail(g.key, g.tests[0]);
    var u := Tail(g.tests[0]) + (TestsBytes(g.tests[1..]) + r);
    assert [] + u == u;
    BytesSplit(Prefixed(g.key), Tail(g.tests[0]), TestsBytes(g.tests[1..]), r);
  }

  /** The writer's output, told by groups. */
  lemma {:induction false} WrittenBundle(gs: seq<Group>)
    requires Proper(gs)
    ensures Written(Events(gs), true) == BundleBytes(gs)
    decreases |gs|
  {
    if gs != [] {
      WrittenGroup(gs[0], Events(gs[1..]));
      WrittenBundle(gs[1..]);
    }
  }

  // From rows to tests

  /** Memory read from `p` to `end` with the key `live` gives the tests `ts`, and nothing is left over. */
  ghost predicate Yields(mem: Memory, p: nat, end: nat, live: Option<Blob>, ts: seq<Paired>)
    decreases |ts|, p
  {
    if ts == [] then p == end
    else
      var r := RecordAt(mem, p);
      var l := Carried(live, r.key);
      && p < end
      && ts[0] == Paired(l, r.msg, r.sig, r.expected)
      && !(mem(r.sigAt + |r.sig|) == 0 && mem(r.sigAt + |r.sig| + 1) >= 0x80)
      && Yields(mem, r.next, end, l, ts[1..])
  }

  lemma {:induction false} YieldsMeaning(mem: Memory, p: nat, end: nat, live: Option<Blob>, ts: seq<Paired>)
    requires Yields(mem, p, end, live, ts)
    ensures Tiles(mem, p, end) && Cases(mem, Records(mem, p, end), live) == CasesFrom(ts)
    decreases |ts|
  {
    if ts != [] {
      var r := RecordAt(mem, p);
      YieldsMeaning(mem, r.next, end, Carried(live, r.key), ts[1..]);
      CasesFirst(mem, p, end, live);
      CaseAlike(mem, p, Carried(live, r.key));
    }
  }

  lemma CaseAlike(mem: Memory, p: nat, live: Option<Blob>)
    requires var r := RecordAt(mem, p);
             !(mem(r.sigAt + |r.sig|) == 0 && mem(r.sigAt + |r.sig| + 1) >= 0x80)
    ensures var r := RecordAt(mem, p);
            CaseOf(mem, r, live) == CaseFrom(Paired(live, r.msg, r.sig, r.expected))
  {
    ParsedAlike(mem, RecordAt(mem, p));
  }

  /** A signature parsed in place in the bundle gives the same as parsed on its own. */
  lemma ParsedAlike(mem: Memory, r: Record)
    requires Read(mem, r.sigAt, |r.sig|) == r.sig
    requires !(mem(r.sigAt + |r.sig|) == 0 && mem(r.sigAt + |r.sig| + 1) >= 0x80)
    ensures Parse(From(mem, r.sigAt), |r.sig|, RS_WIDTH) == Parse(Detached(r.sig), |r.sig|, RS_WIDTH)
  {
    forall i | 0 <= i < |r.sig| ensures From(mem, r.sigAt)(i) == Detached(r.sig)(i) {
      assert Read(mem, r.sigAt, |r.sig|)[i] == mem(r.sigAt + i);
    }
    TailHarmless(From(mem, r.sigAt), Detached(r.sig), |r.sig|, RS_WIDTH);
  }

  lemma RowYields(mem: Memory, p: nat, next: nat, end: nat, live: Option<Blob>, key: Blob, t: Test, ts: seq<Paired>)
    requires Holds(mem, p, RowBytes(key, t)) && next == p + |RowBytes(key, t)|
    requires next <= end && Yields(mem, next, end, Carried(live, key), ts)
    ensures Yields(mem, p, end, live, [Paired(Carried(live, key), t.msg, t.sig, Expected(t.invalid))] + ts)
  {
    RowRecord(mem, p, key, t);
    var all := [Paired(Carried(live, key), t.msg, t.sig, Expected(t.invalid))] + ts;
    assert all[1..] == ts;
  }

  lemma RowRecord(mem: Memory, p: nat, key: Blob, t: Test)
    requires Holds(mem, p, RowBytes(key, t))
    ensures var r := RecordAt(mem, p);
            && r.key == key && r.msg == t.msg && r.sig == t.sig && r.expected == Expected(t.invalid)
            && r.next == p + |RowBytes(key, t)|
            && !(mem(r.sigAt + |r.sig|) == 0 && mem(r.sigAt + |r.sig| + 1) >= 0x80)
  {
    RecordRead(mem, p, key, t);
    StatusBehind(mem, p, key, t);
  }

  lemma {:induction false} TestsYield(
    mem: Memory, p: nat, next: nat, end: nat, live: Option<Blob>, ts: seq<Test>, rest: seq<Paired>)
    requires Holds(mem, p, TestsBytes(ts)) && next == p + |TestsBytes(ts)|
    requires next <= end && Yields(mem, next, end, live, rest)
    ensures Yields(mem, p, end, live, PairedTests(live, ts) + rest)
    decreases |ts|
  {
    if ts == [] {
      assert next == p;
      PairedNone(live, rest);
    } else {
      var row, tail := RowBytes([], ts[0]), TestsBytes(ts[1..]);
      var mid := p + |row|;
      assert TestsBytes(ts) == row + tail && next == mid + |tail|;
      HoldsSplit(mem, p, row, tail);
      TestsYield(mem, mid, next, end, live, ts[1..], rest);
      PairedFirst(live, ts, rest);
      RowYields(mem, p, mid, end, live, [], ts[0], PairedTests(live, ts[1..]) + rest);
    }
  }

  lemma PairedNone(key: Option<Blob>, rest: seq<Paired>)
    ensures PairedTests(key, []) + rest == rest
  {
  }

  lemma PairedFirst(key: Option<Blob>, ts: seq<Test>, rest: seq<Paired>)
    requires ts != []
    ensures PairedTests(key, ts) + rest ==
            [Paired(key, ts[0].msg, ts[0].sig, Expected(ts[0].invalid))] + (PairedTests(key, ts[1..]) + rest)
  {
  }

  lemma GroupYields(mem: Memory, p: nat, next: nat, end: nat, live: Option<Blob>, g: Group, rest: seq<Paired>)
    requires g.tests != []
    requires Holds(mem, p, GroupBytes(g)) && next == p + |GroupBytes(g)|
    requires next <= end && Yields(mem, next, end, Carried(live, g.key), rest)
    ensures Yields(mem, p, end, live, PairedTests(Carried(live, g.key), g.tests) + rest)
  {
    var row, tail := RowBytes(g.key, g.tests[0]), TestsBytes(g.tests[1..]);
    HoldsSplit(mem, p, row, tail);
    var l := Carried(live, g.key);
    var mid, all := p + |row|, PairedTests(l, g.tests[1..]) + rest;
    TestsYield(mem, mid, next, end, l, g.tests[1..], rest);
    RowYields(mem, p, mid, end, live, g.key, g.tests[0], all);
    PairedFirst(l, g.tests, rest);
  }

  lemma {:induction false} BundleYields(mem: Memory, p: nat, end: nat, live: Option<Blob>, gs: seq<Group>)
    requires Proper(gs) && Holds(mem, p, BundleBytes(gs)) && end == p + |BundleBytes(gs)|
    ensures Yields(mem, p, end, live, ReadTests(live, gs))
    decreases |gs|
  {
    if gs != [] {
      var g, rest := GroupBytes(gs[0]), BundleBytes(gs[1..]);
      var mid, l := p + |g|, Carried(live, gs[0].key);
      assert BundleBytes(gs) == g + rest && end == mid + |rest|;
      HoldsSplit(mem, p, g, rest);
      BundleYields(mem, mid, end, l, gs[1..]);
      GroupYields(mem, p, mid, end, live, gs[0], ReadTests(l, gs[1..]));
    }
  }

  // When a test gets its own group's key

  lemma {:induction false} KeyedReads(live: Option<Blob>, gs: seq<Group>)
    requires Keyed(gs)
    ensures ReadTests(live, gs) == AllTests(gs)
    decreases |gs|
  {
    if gs != [] {
      KeyedReads(Some(gs[0].key), gs[1..]);
    }
  }

  /** The reader never has an empty key in force. */
  lemma {:induction false} YieldsKeyed(mem: Memory, p: nat, end: nat, live: Option<Blob>, ts: seq<Paired>)
    requires Yields(mem, p, end, live, ts) && live != Some([])
    ensures forall i :: 0 <= i < |ts| ==> ts[i].key != Some([])
    decreases |ts|
  {
    if ts != [] {
      var r := RecordAt(mem, p);
      YieldsKeyed(mem, r.next, end, Carried(live, r.key), ts[1..]);
      assert forall i :: 0 < i < |ts| ==> ts[i] == ts[1..][i - 1];
    }
  }

  lemma {:induction false} UnkeyedTest(gs: seq<Group>) returns (i: nat)
    requires Proper(gs) && !Keyed(gs)
    ensures i < |AllTests(gs)| && AllTests(gs)[i].key == Some([])
    decreases |gs|
  {
    var own := PairedTests(Some(gs[0].key), gs[0].tests);
    if gs[0].key == [] {
      i := 0;
      assert own[0].key == Some([]);
    } else {
      var k :| 0 <= k < |gs| && gs[k].key == [];
      assert gs[1..][k - 1] == gs[k];
      i := UnkeyedTest(gs[1..]);
      i := |own| + i;
    }
  }

  /**
   Writer then reader: for every list of groups with at least one test each, the reader recovers
   the tests in order and ends where the bundle ends.  Each test has its own group's key iff every
   group has one: a group with an empty key is read with the key of the group before it.
   */
  lemma WriteThenRead(mem: Memory, gs: seq<Group>, blob: seq<byte>)
    requires Proper(gs) && blob == Written(Events(gs), true) && Holds(mem, 0, blob)
    ensures Yields(mem, 0, |blob|, None, ReadTests(None, gs))
    ensures Yields(mem, 0, |blob|, None, AllTests(gs)) <==> Keyed(gs)
  {
    WrittenBundle(gs);
    BundleYields(mem, 0, |blob|, None, gs);
    if Keyed(gs) {
      KeyedReads(None, gs);
    } else if Yields(mem, 0, |blob|, None, AllTests(gs)) {
      YieldsKeyed(mem, 0, |blob|, None, AllTests(gs));
      var i := UnkeyedTest(gs);
    }
  }

  /** A completed run over bytes that yield the tests `ts`, from any state. */
  lemma YieldsRun(crypto: Crypto, mem: Memory, p: nat, end: nat, st: State, ts: seq<Paired>, cs: seq<Case>)
    requires p <= end && Yields(mem, p, end, st.live, ts) && cs == CasesFrom(ts)
    requires Run(crypto, mem, p, end, st).outcome.Completed?
    ensures Run(crypto, mem, p, end, st).outcome ==
            Completed(st.failures + Wrong(crypto, st.total, cs), st.total + |cs|)
  {
    YieldsMeaning(mem, p, end, st.live, ts);
    CompletedMeaning(crypto, mem, p, end, st, cs);
  }

  /** The same from the start; with steady crypto the run does complete. */
  lemma StartRun(crypto: Crypto, mem: Memory, p: nat, end: nat, st: State, ts: seq<Paired>, cs: seq<Case>)
    requires p <= end && Yields(mem, p, end, st.live, ts) && cs == CasesFrom(ts)
    requires st.failures == st.total == 0
    ensures var ran := Run(crypto, mem, p, end, st).outcome;
            && (ran.Completed? ==> ran == Completed(Wrong(crypto, 0, cs), |cs|))
            && (Steady(crypto) ==> ran.Completed?)
  {
    if Run(crypto, mem, p, end, st).outcome.Completed? {
      YieldsRun(crypto, mem, p, end, st, ts, cs);
    }
    if Steady(crypto) {
      YieldsMeaning(mem, p, end, st.live, ts);
      SteadyCompletes(crypto, mem, p, end, st);
    }
  }

  /** A completed run of a written bundle counts the wrong verdicts among the tests that were written. */
  lemma RunWritten(crypto: Crypto, mem: Memory, gs: seq<Group>, blob: seq<byte>)
    requires Proper(gs) && blob == Written(Events(gs), true) && Holds(mem, 0, blob)
    ensures var ran, ts := Run(crypto, mem, 0, |blob|, START).outcome, ReadTests(None, gs);
            && (ran.Completed? ==> ran == Completed(Wrong(crypto, 0, CasesFrom(ts)), |ts|))
            && (Steady(crypto) ==> ran.Completed?)
            && (Keyed(gs) ==> ts == AllTests(gs))
  {
    WriteThenRead(mem, gs, blob);
    var ts := ReadTests(None, gs);
    StartRun(crypto, mem, 0, |blob|, START, ts, CasesFrom(ts));
    if Keyed(gs) {
      KeyedReads(None, gs);
    }
  }

  /** The tests of a group with an empty key, read with the key of the group before it. */
  lemma EmptyKeyCarries(mem: Memory, p: nat, end: nat, key: Blob, ts: seq<Test>)
    requires ts != [] && Holds(mem, p, GroupBytes(Group([], ts))) && end == p + |GroupBytes(Group([], ts))|
    ensures Yields(mem, p, end, Some(key), PairedTests(Some(key), ts))
  {
    GroupYields(mem, p, end, end, Some(key), Group([], ts), []);
    assert PairedTests(Some(key), ts) + [] == PairedTests(Some(key), ts);
  }
}
