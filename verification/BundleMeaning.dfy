/**
 What a completed bundle run counts, told record by record and test by test: a rejected
 signature encoding stands for an invalid signature, an accepted one is judged by the crypto
 service with the key in force, and a failure is a verdict other than the stored one.
 */
module BundleMeaning {
  import opened Common
  import opened Bytes
  import opened DerSignature
  import opened WycheproofBundle
  import opened BundleTheorems

  // ----- Counting -----

  ghost predicate Misjudged(crypto: Crypto, cs: seq<Case>, k: nat) {
    k < |cs| && Judge(crypto, k, cs[k]) != Judged(cs[k].expected)
  }

  lemma {:induction false} WrongLast(crypto: Crypto, i: nat, cs: seq<Case>)
    requires cs != []
    ensures var n := |cs| - 1;
            Wrong(crypto, i, cs) ==
            Wrong(crypto, i, cs[..n]) + if Judge(crypto, i + n, cs[n]) == Judged(cs[n].expected) then 0 else 1
    decreases |cs|
  {
    var n := |cs| - 1;
    if n > 0 {
      WrongLast(crypto, i + 1, cs[1..]);
      assert cs[1..][..n - 1] == cs[..n][1..];
      WrongFirst(crypto, i, cs);
      WrongFirst(crypto, i, cs[..n]);
    } else {
      assert cs[1..] == [] == cs[..n];
    }
  }

  /** The misjudged cases among the first `n`. */
  ghost function Misjudgements(crypto: Crypto, cs: seq<Case>, n: nat): set<nat> {
    set k: nat | k < n && Misjudged(crypto, cs, k)
  }

  lemma MisjudgementsStep(crypto: Crypto, cs: seq<Case>, n: nat)
    ensures |Misjudgements(crypto, cs, n + 1)| ==
            |Misjudgements(crypto, cs, n)| + if Misjudged(crypto, cs, n) then 1 else 0
  {
    var less, all := Misjudgements(crypto, cs, n), Misjudgements(crypto, cs, n + 1);
    assert all == less + if Misjudged(crypto, cs, n) then {n} else {};
  }

  lemma {:induction false} WrongCounted(crypto: Crypto, cs: seq<Case>, n: nat)
    requires n <= |cs|
    ensures Wrong(crypto, 0, cs[..n]) == |Misjudgements(crypto, cs, n)|
  {
    if n > 0 {
      WrongCounted(crypto, cs, n - 1);
      WrongLast(crypto, 0, cs[..n]);
      assert cs[..n][..n - 1] == cs[..n - 1];
      MisjudgementsStep(crypto, cs, n - 1);
    }
  }

  // ----- Any bundle -----

  /** The last key at or before record `k`. */
  function KeyInForce(rs: seq<Record>, live: Option<Blob>, k: nat): Option<Blob>
    requires k < |rs|
  {
    if rs[k].key != [] then Some(rs[k].key) else if k == 0 then live else KeyInForce(rs, live, k - 1)
  }

  lemma {:induction false} KeyFromNext(rs: seq<Record>, live: Option<Blob>, k: nat)
    requires 0 < k < |rs|
    ensures KeyInForce(rs, live, k) == KeyInForce(rs[1..], Carried(live, rs[0].key), k - 1)
  {
    if k > 1 {
      KeyFromNext(rs, live, k - 1);
    }
  }

  lemma {:induction false} CasesAt(mem: Memory, rs: seq<Record>, live: Option<Blob>, k: nat)
    requires k < |rs|
    ensures Cases(mem, rs, live)[k] == CaseOf(mem, rs[k], KeyInForce(rs, live, k))
    decreases k
  {
    if k > 0 {
      CasesAt(mem, rs[1..], Carried(live, rs[0].key), k - 1);
      KeyFromNext(rs, live, k);
    }
  }

  /** The crypto service answered with one of the two verdicts wherever it was asked. */
  ghost predicate Answered(crypto: Crypto, k: nat, key: Option<Blob>, msg: Blob, parsed: Parsed) {
    parsed.Accepted? ==>
      && crypto.hash(k, msg).Hashed?
      && crypto.verify(k, key, crypto.hash(k, msg).hash, parsed.rs) in {0, -149}
  }

  /** Record `k` has another status stored than the run finds. */
  ghost predicate Unexpected(crypto: Crypto, mem: Memory, rs: seq<Record>, k: nat) {
    k < |rs| &&
    match Parse(From(mem, rs[k].sigAt), |rs[k].sig|, 96)
    case Rejected => rs[k].expected != -149
    case Accepted(out) =>
      && crypto.hash(k, rs[k].msg).Hashed?
      && rs[k].expected != crypto.verify(k, KeyInForce(rs, None, k), crypto.hash(k, rs[k].msg).hash, out)
  }

  /** No call failed on any of the cases, numbered from `i`. */
  predicate AllJudged(crypto: Crypto, i: nat, cs: seq<Case>)
    decreases |cs|
  {
    cs == [] || (Judge(crypto, i, cs[0]).Judged? && AllJudged(crypto, i + 1, cs[1..]))
  }

  lemma {:induction false} AllJudgedAt(crypto: Crypto, i: nat, cs: seq<Case>, k: nat)
    requires AllJudged(crypto, i, cs) && k < |cs|
    ensures Judge(crypto, i + k, cs[k]).Judged?
    decreases k
  {
    if k > 0 {
      AllJudgedAt(crypto, i + 1, cs[1..], k - 1);
    }
  }

  lemma {:induction false} Unbroken(crypto: Crypto, mem: Memory, p: nat, end: nat, st: State, cs: seq<Case>)
    requires p <= end && Run(crypto, mem, p, end, st).outcome.Completed?
    requires cs == Cases(mem, Records(mem, p, end), st.live)
    ensures AllJudged(crypto, st.total, cs)
    decreases end - p
  {
    if p < end {
      RunStep(crypto, mem, p, end, st);
      FirstUnbroken(crypto, mem, p, end, st);
      CasesFirst(mem, p, end, st.live);
      Unbroken(crypto, mem, RecordAt(mem, p).next, end, Next(crypto, mem, p, st), cs[1..]);
    }
  }

  lemma {:induction false} FirstUnbroken(crypto: Crypto, mem: Memory, p: nat, end: nat, st: State)
    requires p < end && Run(crypto, mem, p, end, st).outcome.Completed?
    ensures var r := RecordAt(mem, p);
            Judge(crypto, st.total, CaseOf(mem, r, Carried(st.live, r.key))).Judged?
  {
    var k := TakeKey(crypto, st, RecordAt(mem, p).key);
    assert k.ok && k.st.live == Carried(st.live, RecordAt(mem, p).key);
  }

  /** The verdict on one case. */
  lemma JudgeMeaning(crypto: Crypto, k: nat, c: Case)
    requires Judge(crypto, k, c).Judged?
    ensures Answered(crypto, k, c.key, c.msg, c.parsed)
    ensures Judge(crypto, k, c).status ==
            if c.parsed.Rejected? then -149 else crypto.verify(k, c.key, crypto.hash(k, c.msg).hash, c.parsed.rs)
  {
  }

  /** The same of the record it comes from. */
  lemma {:induction false} RecordMeaning(crypto: Crypto, mem: Memory, rs: seq<Record>, cs: seq<Case>, k: nat)
    requires cs == Cases(mem, rs, None) && AllJudged(crypto, 0, cs) && k < |rs|
    ensures Misjudged(crypto, cs, k) <==> Unexpected(crypto, mem, rs, k)
    ensures AnsweredAt(crypto, mem, rs, k)
  {
    CasesAt(mem, rs, None, k);
    AllJudgedAt(crypto, 0, cs, k);
    JudgeMeaning(crypto, k, cs[k]);
  }

  ghost predicate AnsweredAt(crypto: Crypto, mem: Memory, rs: seq<Record>, k: nat) {
    k < |rs| ==>
      Answered(crypto, k, KeyInForce(rs, None, k), rs[k].msg, Parse(From(mem, rs[k].sigAt), |rs[k].sig|, 96))
  }

  lemma {:induction false} WrongRecords(crypto: Crypto, mem: Memory, rs: seq<Record>, cs: seq<Case>)
    requires cs == Cases(mem, rs, None) && AllJudged(crypto, 0, cs)
    ensures Wrong(crypto, 0, cs) == |set k: nat | k < |rs| && Unexpected(crypto, mem, rs, k)|
  {
    WrongCounted(crypto, cs, |cs|);
    assert cs[..|cs|] == cs;
    var judged := Misjudgements(crypto, cs, |cs|);
    var stored := set k: nat | k < |rs| && Unexpected(crypto, mem, rs, k);
    forall k: nat | k < |rs| ensures k in judged <==> k in stored {
      RecordMeaning(crypto, mem, rs, cs, k);
    }
    assert judged == stored;
  }

  /**
   A completed run of any bundle: the failures are the records whose stored status is not -149
   when the signature encoding is rejected, or else not what the crypto service says of the
   message's hash, the parsed signature and the last key at or before the record.
   */
  lemma {:induction false} FailuresCounted(crypto: Crypto, mem: Memory, p: nat, end: nat, st: State, rs: seq<Record>)
    requires p <= end && Run(crypto, mem, p, end, st).outcome.Completed?
    requires st.live == None && st.failures == st.total == 0 && rs == Records(mem, p, end)
    ensures Run(crypto, mem, p, end, st).outcome ==
            Completed(|set k: nat | k < |rs| && Unexpected(crypto, mem, rs, k)|, |rs|)
    ensures forall k: nat :: AnsweredAt(crypto, mem, rs, k)
  {
    var cs := Cases(mem, rs, None);
    CompletedMeaning(crypto, mem, p, end, st, cs);
    Unbroken(crypto, mem, p, end, st, cs);
    WrongRecords(crypto, mem, rs, cs);
    forall k: nat ensures AnsweredAt(crypto, mem, rs, k) {
      if k < |rs| {
        RecordMeaning(crypto, mem, rs, cs, k);
      }
    }
  }

  // ----- Completion -----

  /** Every call the run makes for the records succeeds: key changes, hashes, verifications, the last destroy. */
  ghost predicate CallsOk(crypto: Crypto, mem: Memory, i: nat, rs: seq<Record>, live: Option<Blob>)
    decreases |rs|
  {
    if rs == [] then live.None? || crypto.destroys(i)
    else
      && (rs[0].key != [] ==> crypto.imports(i, rs[0].key) && (live.Some? ==> crypto.destroys(i)))
      && Answered(crypto, i, Carried(live, rs[0].key), rs[0].msg, Parse(From(mem, rs[0].sigAt), |rs[0].sig|, 96))
      && CallsOk(crypto, mem, i + 1, rs[1..], Carried(live, rs[0].key))
  }

  lemma {:induction false} JudgedIff(crypto: Crypto, i: nat, c: Case)
    ensures Judge(crypto, i, c).Judged? <==> Answered(crypto, i, c.key, c.msg, c.parsed)
  {
  }

  lemma {:induction false} TakenIff(crypto: Crypto, st: State, key: Blob)
    ensures var k := TakeKey(crypto, st, key);
            && (k.ok <==> key != [] ==> crypto.imports(st.total, key) && (st.live.Some? ==> crypto.destroys(st.total)))
            && (k.ok ==> k.st.live == Carried(st.live, key) && k.st.total == st.total)
  {
  }

  /** Key change and verdict for the record at `p` succeed. */
  predicate RecordOk(crypto: Crypto, mem: Memory, p: nat, st: State) {
    var r := RecordAt(mem, p);
    var k := TakeKey(crypto, st, r.key);
    k.ok && Judge(crypto, st.total, CaseOf(mem, r, k.st.live)).Judged?
  }

  lemma {:induction false} CompletesStep(crypto: Crypto, mem: Memory, p: nat, end: nat, st: State, r: Record)
    requires p < end && r == RecordAt(mem, p)
    ensures Run(crypto, mem, p, end, st).outcome.Completed? <==>
            && RecordOk(crypto, mem, p, st) && r.next <= end
            && Run(crypto, mem, r.next, end, Next(crypto, mem, p, st)).outcome.Completed?
  {
    TakenIff(crypto, st, r.key);
  }

  lemma {:induction false} CallsFirst(crypto: Crypto, mem: Memory, p: nat, st: State, rs: seq<Record>)
    requires rs != [] && rs[0] == RecordAt(mem, p)
    ensures var n := Next(crypto, mem, p, st);
            CallsOk(crypto, mem, st.total, rs, st.live) <==>
            RecordOk(crypto, mem, p, st) && CallsOk(crypto, mem, n.total, rs[1..], n.live)
  {
    var r := rs[0];
    TakenIff(crypto, st, r.key);
    JudgedIff(crypto, st.total, CaseOf(mem, r, Carried(st.live, r.key)));
  }

  lemma {:induction false} TilesFirst(mem: Memory, p: nat, end: nat, r: Record)
    requires p < end && r == RecordAt(mem, p)
    ensures Tiles(mem, p, end) <==> r.next <= end && Tiles(mem, r.next, end)
    ensures Records(mem, p, end) == [r] + Records(mem, r.next, end)
  {
    if r.next > end {
      assert !Tiles(mem, r.next, end);
    }
  }

  /** A run completes iff the records fill the bundle and every call succeeds. */
  lemma {:induction false} CompletesIff(crypto: Crypto, mem: Memory, p: nat, end: nat, st: State, rs: seq<Record>)
    requires p <= end && rs == Records(mem, p, end)
    ensures Run(crypto, mem, p, end, st).outcome.Completed? <==>
            Tiles(mem, p, end) && CallsOk(crypto, mem, st.total, rs, st.live)
    decreases end - p
  {
    if p == end {
      assert rs == [];
    } else {
      var r := RecordAt(mem, p);
      TilesFirst(mem, p, end, r);
      CompletesStep(crypto, mem, p, end, st, r);
      CallsFirst(crypto, mem, p, st, rs);
      if r.next <= end {
        CompletesIff(crypto, mem, r.next, end, Next(crypto, mem, p, st), rs[1..]);
      }
    }
  }

  // ----- Keys -----

  function Imports(log: seq<KeyEvent>): seq<Blob> {
    if log == [] then []
    else Imports(log[..|log| - 1]) + if log[|log| - 1].Imported? then [log[|log| - 1].key] else []
  }

  function KeysOf(rs: seq<Record>): seq<Blob> {
    if rs == [] then [] else OwnKey(rs[0].key) + KeysOf(rs[1..])
  }

  function OwnKey(key: Blob): seq<Blob> {
    if key != [] then [key] else []
  }

  lemma ImportsStep(log: seq<KeyEvent>, e: KeyEvent)
    ensures Imports(log + [e]) == Imports(log) + if e.Imported? then [e.key] else []
  {
    assert (log + [e])[..|log|] == log;
  }

  lemma TakeKeyImports(crypto: Crypto, st: State, key: Blob)
    requires TakeKey(crypto, st, key).ok
    ensures Imports(TakeKey(crypto, st, key).st.log) == Imports(st.log) + OwnKey(key)
  {
    if key == [] {
      assert Imports(st.log) + [] == Imports(st.log);
    } else if st.live.Some? {
      ImportsStep(st.log, Destroyed);
      ImportsStep(st.log + [Destroyed], Imported(key));
      assert Imports(st.log) + [] == Imports(st.log);
    } else {
      ImportsStep(st.log, Imported(key));
    }
  }

  lemma {:induction false} NextImports(crypto: Crypto, mem: Memory, p: nat, end: nat, st: State)
    requires p < end && Run(crypto, mem, p, end, st).outcome.Completed?
    ensures Imports(Next(crypto, mem, p, st).log) == Imports(st.log) + OwnKey(RecordAt(mem, p).key)
  {
    TakeKeyImports(crypto, st, RecordAt(mem, p).key);
  }

  /** A completed run imports the keys of the records, in order, and nothing else. */
  lemma {:induction false} KeysImported(crypto: Crypto, mem: Memory, p: nat, end: nat, st: State)
    requires p <= end && Run(crypto, mem, p, end, st).outcome.Completed?
    ensures Imports(Run(crypto, mem, p, end, st).log) == Imports(st.log) + KeysOf(Records(mem, p, end))
    decreases end - p
  {
    if p == end {
      ImportsStep(st.log, Destroyed);
      assert Imports(st.log) + [] == Imports(st.log);
    } else {
      var next := RecordAt(mem, p).next;
      RunStep(crypto, mem, p, end, st);
      NextImports(crypto, mem, p, end, st);
      KeysImported(crypto, mem, next, end, Next(crypto, mem, p, st));
      KeysFirst(mem, p, end, Imports(st.log));
    }
  }

  lemma {:induction false} KeysFirst(mem: Memory, p: nat, end: nat, before: seq<Blob>)
    requires p < end
    ensures before + KeysOf(Records(mem, p, end)) ==
            before + OwnKey(RecordAt(mem, p).key) + KeysOf(Records(mem, RecordAt(mem, p).next, end))
  {
    var rs := Records(mem, p, end);
    assert rs[0] == RecordAt(mem, p) && rs[1..] == Records(mem, RecordAt(mem, p).next, end);
    assert KeysOf(rs) == OwnKey(rs[0].key) + KeysOf(rs[1..]);
  }

  /** Without a failing call the run never gives up. */
  lemma {:induction false} SteadyNoSizeMax(crypto: Crypto, mem: Memory, p: nat, end: nat, st: State)
    requires p <= end && Steady(crypto)
    ensures Run(crypto, mem, p, end, st).outcome != SizeMax
    decreases end - p
  {
    if p < end {
      var r := RecordAt(mem, p);
      var k := TakeKey(crypto, st, r.key);
      var j := Judge(crypto, st.total, CaseOf(mem, r, k.st.live));
      assert k.ok && j.Judged?;
      if r.next <= end {
        SteadyNoSizeMax(crypto, mem, r.next, end, Count(k.st, j.status != r.expected));
      }
    }
  }

  /** It completes or, iff the records do not fill the bundle, trips the assertion. */
  lemma SteadyEnds(crypto: Crypto, mem: Memory, p: nat, end: nat, st: State)
    requires p <= end && Steady(crypto)
    ensures Run(crypto, mem, p, end, st).outcome == AssertFailed <==> !Tiles(mem, p, end)
    ensures Run(crypto, mem, p, end, st).outcome.Completed? <==> Tiles(mem, p, end)
  {
    SteadyNoSizeMax(crypto, mem, p, end, st);
    SteadyCompletes(crypto, mem, p, end, st);
  }

  // ----- Written bundles -----

  /** The tests of all groups, in order. */
  function TestsOf(gs: seq<Group>): seq<Test> {
    if gs == [] then [] else gs[0].tests + TestsOf(gs[1..])
  }

  lemma {:induction false} PairedSame(key: Option<Blob>, ts: seq<Test>)
    ensures |PairedTests(key, ts)| == |ts|
    ensures forall k :: 0 <= k < |ts| ==> SameTest(PairedTests(key, ts)[k], ts[k])
    decreases |ts|
  {
    if ts != [] {
      PairedSame(key, ts[1..]);
      assert forall k :: 0 < k < |ts| ==>
               PairedTests(key, ts)[k] == PairedTests(key, ts[1..])[k - 1] && ts[k] == ts[1..][k - 1];
    }
  }

  /** The tests that are read are those that were written, with the status their flag stands for. */
  lemma {:induction false} ReadSame(live: Option<Blob>, gs: seq<Group>)
    ensures |ReadTests(live, gs)| == |TestsOf(gs)|
    ensures forall k :: 0 <= k < |TestsOf(gs)| ==> SameTest(ReadTests(live, gs)[k], TestsOf(gs)[k])
    decreases |gs|
  {
    if gs != [] {
      PairedSame(Carried(live, gs[0].key), gs[0].tests);
      ReadSame(Carried(live, gs[0].key), gs[1..]);
    }
  }

  /** Test `k`, with the key it is read with, is judged other than its flag says. */
  ghost predicate Misread(crypto: Crypto, ts: seq<Paired>, written: seq<Test>, k: nat) {
    k < |ts| && k < |written| &&
    match Parse(Detached(written[k].sig), |written[k].sig|, 96)
    case Rejected => !written[k].invalid
    case Accepted(out) =>
      && crypto.hash(k, written[k].msg).Hashed?
      && var v := crypto.verify(k, ts[k].key, crypto.hash(k, written[k].msg).hash, out);
         (v == 0 && written[k].invalid) || (v == -149 && !written[k].invalid)
  }

  /** A test as it is read, its key aside. */
  predicate SameTest(p: Paired, t: Test) {
    p == Paired(p.key, t.msg, t.sig, if t.invalid then -149 else 0)
  }

  lemma {:induction false} TestMeaning(crypto: Crypto, ts: seq<Paired>, cs: seq<Case>, written: seq<Test>, k: nat)
    requires cs == CasesFrom(ts) && AllJudged(crypto, 0, cs) && k < |ts| == |written| && SameTest(ts[k], written[k])
    ensures Misjudged(crypto, cs, k) <==> Misread(crypto, ts, written, k)
  {
    CasesFromAt(ts, k);
    AllJudgedAt(crypto, 0, cs, k);
    JudgeMeaning(crypto, k, cs[k]);
  }

  lemma {:induction false} WrongTests(crypto: Crypto, ts: seq<Paired>, cs: seq<Case>, written: seq<Test>)
    requires cs == CasesFrom(ts) && AllJudged(crypto, 0, cs) && |ts| == |written|
    requires forall k :: 0 <= k < |ts| ==> SameTest(ts[k], written[k])
    ensures Wrong(crypto, 0, cs) == |set k: nat | k < |ts| && Misread(crypto, ts, written, k)|
  {
    WrongCounted(crypto, cs, |cs|);
    assert cs[..|cs|] == cs;
    var judged := Misjudgements(crypto, cs, |cs|);
    var flagged := set k: nat | k < |ts| && Misread(crypto, ts, written, k);
    forall k: nat | k < |ts| ensures k in judged <==> k in flagged {
      TestMeaning(crypto, ts, cs, written, k);
    }
    assert judged == flagged;
  }

  lemma {:induction false} FailuresRead(
    crypto: Crypto, mem: Memory, p: nat, end: nat, st: State, ts: seq<Paired>,
    written: seq<Test>)
    requires p <= end && Yields(mem, p, end, None, ts) && |ts| == |written|
    requires forall k :: 0 <= k < |ts| ==> SameTest(ts[k], written[k])
    requires Run(crypto, mem, p, end, st).outcome.Completed?
    requires st.live == None && st.failures == st.total == 0
    ensures Run(crypto, mem, p, end, st).outcome ==
            Completed(|set k: nat | k < |ts| && Misread(crypto, ts, written, k)|, |ts|)
  {
    var cs := CasesFrom(ts);
    YieldsMeaning(mem, p, end, None, ts);
    YieldsRun(crypto, mem, p, end, st, ts, cs);
    Unbroken(crypto, mem, p, end, st, cs);
    WrongTests(crypto, ts, cs, written);
  }

  lemma {:induction false} CasesFromAt(ts: seq<Paired>, k: nat)
    requires k < |ts|
    ensures CasesFrom(ts)[k] == CaseFrom(ts[k])
  {
    if k > 0 {
      CasesFromAt(ts[1..], k - 1);
    }
  }

  /**
   A completed run of a written bundle: the failures are the valid tests whose signature is
   rejected or found invalid, and the invalid ones that are found valid.
   */
  lemma {:induction false} WrittenFailures(crypto: Crypto, mem: Memory, gs: seq<Group>, blob: seq<byte>)
    requires Proper(gs) && blob == Written(Events(gs), true) && Holds(mem, 0, blob)
    requires Run(crypto, mem, 0, |blob|, START).outcome.Completed?
    ensures var ts, written := ReadTests(None, gs), TestsOf(gs);
            && |ts| == |written|
            && Run(crypto, mem, 0, |blob|, START).outcome ==
               Completed(|set k: nat | k < |ts| && Misread(crypto, ts, written, k)|, |ts|)
  {
    WriteThenRead(mem, gs, blob);
    ReadSame(None, gs);
    FailuresRead(crypto, mem, 0, |blob|, START, ReadTests(None, gs), TestsOf(gs));
  }

  /** The last four bytes written for a test are 0 when it is valid, else -149, least significant byte first. */
  lemma {:induction false} WrittenResult(t: Test, rest: seq<Event>, checkKey: bool) returns (head: seq<byte>)
    ensures Written([Msg(t.msg), Sig(t.sig), Result(t.invalid)] + rest, checkKey) ==
            head + (if t.invalid then [0x6B, 0xFF, 0xFF, 0xFF] else [0, 0, 0, 0]) + Written(rest, true)
    ensures |head| == (if checkKey then 12 else 8) + |t.msg| + |t.sig|
  {
    WrittenTail(t, rest, checkKey);
    var z := if checkKey then Zeros(4) else [];
    head := z + (Prefixed(t.msg) + Prefixed(t.sig));
    HeadFirst(z, Prefixed(t.msg), Prefixed(t.sig), ResultWord(t.invalid), Written(rest, true));
  }

  lemma HeadFirst(z: seq<byte>, m: seq<byte>, s: seq<byte>, w: seq<byte>, r: seq<byte>)
    ensures z + ((m + s + w) + r) == (z + (m + s)) + w + r
  {
  }
}
