/**
 What each claim getter of the attestation decoder returns, by the kind of value that the last
 claim with the label holds; the same for the batch, flag by flag, and for the component count.
 */
module IatMeaning {
  import opened Common
  import opened Cbor
  import opened CborCursor
  import opened CborRefinement
  import opened IatClaims
  import opened IatTheorems
  import opened SwComponentClaims

  // ----- The claim that is looked at -----

  /** Without hollow claims it is the last one with the label. */
  lemma ClaimedLast(root: Node, wanted: Int64)
    requires root.Map? && NoHollow(root.entries)
    ensures SearchMap(Token(root), 0).err == Success
    ensures forall i: nat :: IsLast(root.entries, wanted, i) ==> Claimed(root, wanted) == Tag(root.entries[i]).data
    ensures !Carries(root.entries, wanted) ==> Claimed(root, wanted) == NoData
  {
    SearchToken(root);
    SeenPrefix(root.entries);
    forall i: nat | IsLast(root.entries, wanted, i)
      ensures Claimed(root, wanted) == Tag(root.entries[i]).data
    {
      LastNode(root.entries, wanted, i);
    }
    if !Carries(root.entries, wanted) {
      NoNode(root.entries, wanted);
    }
  }

  // ----- Single getters -----

  /** The text getter returns a text string, the byte-string getter a byte string; the errors otherwise. */
  lemma StringMeaning(root: Node, wanted: Int64, junk: Data, prior: Slice)
    requires SearchMap(Token(root), 0).err == Success && wanted != 0
    ensures StringAt(Good(root), wanted, true, junk, prior) ==
            match Claimed(root, wanted)
            case Value(Text(s)) => Outcome(Success, s)
            case NoData => Outcome(NotFound, prior)
            case _ => Outcome(CborType, prior)
    ensures StringAt(Good(root), wanted, false, junk, prior) ==
            match Claimed(root, wanted)
            case Value(Bytes(s)) => Outcome(Success, s)
            case NoData => Outcome(NotFound, prior)
            case _ => Outcome(CborType, prior)
  {
    LookForClaimed(root, wanted, junk);
  }

  /** The integer getters convert between the two integer kinds as far as the other one reaches. */
  lemma IntegerMeaning(root: Node, wanted: Int64, junk: Data, stale: Int64, stale': UInt64)
    requires SearchMap(Token(root), 0).err == Success && wanted != 0
    ensures IntAt(Good(root), wanted, junk, stale) ==
            match Claimed(root, wanted)
            case Value(Int(i)) => Outcome(Success, i)
            case Value(UInt(u)) =>
              if u < 0x7FFF_FFFF_FFFF_FFFF then Outcome(Success, u) else Outcome(IntegerValue, stale)
            case NoData => Outcome(NotFound, stale)
            case _ => Outcome(CborType, stale)
    ensures UIntAt(Good(root), wanted, junk, stale') ==
            match Claimed(root, wanted)
            case Value(UInt(u)) => Outcome(Success, u)
            case Value(Int(i)) => if i >= 0 then Outcome(Success, i) else Outcome(IntegerValue, stale')
            case NoData => Outcome(NotFound, stale')
            case _ => Outcome(CborType, stale')
  {
    LookForClaimed(root, wanted, junk);
  }

  /** The client id is a signed 32-bit value. */
  lemma ClientIdByKind(root: Node, wanted: Int64, stale: Int64, prior: Int32)
    requires SearchMap(Token(root), 0).err == Success && wanted != 0
    ensures ClientIdAt(Good(root), wanted, stale, prior) ==
            match Claimed(root, wanted)
            case Value(Int(i)) =>
              if -0x8000_0000 <= i < 0x8000_0000 then Outcome(Success, i) else Outcome(IntegerValue, prior)
            case Value(UInt(u)) => if u < 0x8000_0000 then Outcome(Success, u) else Outcome(IntegerValue, prior)
            case NoData => Outcome(NotFound, prior)
            case _ => Outcome(CborType, prior)
  {
    IntegerMeaning(root, wanted, NoData, stale, 0);
  }

  /** What comes of the lifecycle when no value was found: the local that was not written to is tested. */
  function Unwritten(err: Err, stale: UInt64, prior: UInt32): Outcome<UInt32> {
    if stale < 0x1_0000_0000 then Outcome(err, stale) else Outcome(IntegerValue, prior)
  }

  /** The lifecycle is an unsigned 32-bit value. */
  lemma LifecycleByKind(root: Node, wanted: Int64, stale: UInt64, prior: UInt32)
    requires SearchMap(Token(root), 0).err == Success && wanted != 0
    ensures LifecycleAt(Good(root), wanted, stale, prior) ==
            match Claimed(root, wanted)
            case Value(Int(i)) =>
              if i < 0 then Unwritten(IntegerValue, stale, prior)
              else if i < 0x1_0000_0000 then Outcome(Success, i) else Outcome(IntegerValue, prior)
            case Value(UInt(u)) => if u < 0x1_0000_0000 then Outcome(Success, u) else Outcome(IntegerValue, prior)
            case NoData => Unwritten(NotFound, stale, prior)
            case _ => Unwritten(CborType, stale, prior)
  {
    IntegerMeaning(root, wanted, NoData, 0, stale);
  }

  /** A null payload, an empty one, and no payload at all in a context in error. */
  lemma NoPayload(wanted: Int64, text: bool, junk: Data, prior: Slice, stale: Int64, stale': UInt64)
    ensures StringAt(Context(NullPayload, Success), wanted, text, junk, prior) == Outcome(CoseValidation, prior)
    ensures StringAt(Context(Payload([]), Success), wanted, text, junk, prior) == Outcome(CborStructure, prior)
    ensures IntAt(Context(NullPayload, Success), wanted, junk, stale) == Outcome(CborStructure, stale)
    ensures UIntAt(Context(NullPayload, Success), wanted, junk, stale') == Outcome(CborStructure, stale')
  {
  }

  // ----- Items behind the token -----

  /** A stream that goes on behind the token of a map: the search is the same, the final check is not. */
  lemma SearchTrailing(root: Node, more: seq<Item>)
    requires root.Map? && NoHollow(root.entries) && more != []
    ensures var s := SearchMap(Token(root) + more, 0);
            && s == SearchMap(Token(root), 0) && s.err == Success
            && FinishAt(Token(root) + more, s.visit.pos) == ExtraBytes
  {
    var all := Token(root) + more;
    TokenLaid(root);
    SeenPrefix(root.entries);
    assert Token(root) <= all && all[0] == Token(root)[0];
    SearchPart(root, Token(root), Token(root));
    SearchPart(root, Token(root), all);
  }

  lemma {:induction false} SearchPart(root: Node, items: seq<Item>, all: seq<Item>)
    requires root.Map? && NoHollow(root.entries) && !EndsHollow(root.entries)
    requires items <= all && items != [] && all[0] == Head(root, 0, 0)
    requires |items| == 1 + Size(root.entries) && Laid(items, 1, root.entries, 1, 0)
    ensures SearchMap(all, 0) == Search(Success, Visit(Tags(Seen(root.entries)), |items|, true))
    ensures |items| < |all| ==> FinishAt(all, |items|) == ExtraBytes
  {
    var ns := root.entries;
    LaidBefore(items, all, 1, ns, 1, 0);
    if ns != [] {
      WalkLaid(all, 1, ns, 1, 0, |items|);
      LastNext(all, 1, ns, 1, 0);
    }
  }

  lemma {:induction false} LaidBefore(
    items: seq<Item>, all: seq<Item>, pos: nat, ns: seq<Node>, level: nat, after: nat)
    requires items <= all && Laid(items, pos, ns, level, after)
    ensures Laid(all, pos, ns, level, after)
    decreases ns, 1
  {
    if ns != [] {
      var a := AfterFirst(ns, level, after);
      KidsBefore(items, all, pos + 1, ns[0], level + 1, a);
      LaidBefore(items, all, pos + 1 + Size(Kids(ns[0])), ns[1..], level, after);
      LaidFirst(all, pos, ns, level, after, a, pos + 1 + Size(Kids(ns[0])));
    }
  }

  lemma {:induction false} KidsBefore(
    items: seq<Item>, all: seq<Item>, pos: nat, n: Node, level: nat, after: nat)
    requires items <= all && (n.Leaf? || Laid(items, pos, Kids(n), level, after))
    ensures Laid(all, pos, Kids(n), level, after)
    decreases n, 0
  {
    if !n.Leaf? {
      LaidBefore(items, all, pos, Kids(n), level, after);
    }
  }

  /**
   Items behind the token: a string getter reports them and returns nothing, an integer getter
   returns the value with another error.
   */
  lemma Trailing(root: Node, more: seq<Item>, wanted: Int64, text: bool, junk: Data, prior: Slice, stale: Int64)
    requires root.Map? && NoHollow(root.entries) && more != [] && wanted != 0
    requires Claimed(root, wanted) != NoData
    ensures var me := Context(Payload(Token(root) + more), Success);
            && StringAt(me, wanted, text, junk, prior) == Outcome(NotWellFormed, prior)
            && (forall i: Int64 :: Claimed(root, wanted) == Value(Int(i)) ==>
                  IntAt(me, wanted, junk, stale) == Outcome(CborStructure, i))
  {
    SearchTrailing(root, more);
  }

  /** The final check on any stream: a container left open comes before unread items. */
  lemma FinishErrors(items: seq<Item>, wanted: Int64, text: bool, junk: Data, prior: Slice)
    requires SearchMap(items, 0).err == Success && wanted != 0
    requires LastMatch(SearchMap(items, 0).visit.direct, wanted) != NoData
    ensures var pos := SearchMap(items, 0).visit.pos;
            var r := StringAt(Context(Payload(items), Success), wanted, text, junk, prior);
            && (0 < pos && items[pos - 1].next != 0 ==> r == Outcome(CborStructure, prior))
            && (0 < pos < |items| && items[pos - 1].next == 0 ==> r == Outcome(NotWellFormed, prior))
  {
  }

  // ----- Containers left open -----

  lemma {:induction false} SkipCloses(items: seq<Item>, pos: nat, level: nat)
    requires pos <= |items|
    ensures var s := Skip(items, pos, level);
            s.ok ==> 0 < s.pos && items[s.pos - 1].next == s.next < level
    decreases |items| - pos
  {
    if pos < |items| && items[pos].next >= level {
      SkipCloses(items, pos + 1, level);
    }
  }

  lemma {:induction false} WalkCloses(items: seq<Item>, pos: nat, level: nat)
    requires pos <= |items|
    ensures var v := Walk(items, pos, level);
            v.ok ==> 0 < v.pos && items[v.pos - 1].next < level
    decreases |items| - pos
  {
    if pos < |items| {
      var s := Consume(items, pos + 1, items[pos]);
      SkipCloses(items, pos + 1, items[pos].next);
      if s.ok && s.next >= level {
        WalkCloses(items, s.pos, level);
      }
    }
  }

  /**
   On any stream that starts at level 0, also one that breaks off, the final check never finds a
   container open behind a successful search: the getters' error for it is not reachable.
   */
  lemma NeverOpen(items: seq<Item>)
    requires items != [] && items[0].level == 0 && SearchMap(items, 0).err == Success
    ensures FinishAt(items, SearchMap(items, 0).visit.pos) != StillOpen
  {
    WalkCloses(items, 1, 1);
  }

  // ----- Batch -----

  ghost predicate HasBytes(d: Data, flag: bool, iat: Iat, c: Claims) {
    && (flag <==> d.Value? && d.scalar.Bytes?)
    && (flag ==> c in iat.strings && d == Value(Bytes(iat.strings[c])))
  }

  ghost predicate HasText(d: Data, flag: bool, iat: Iat, c: Claims) {
    && (flag <==> d.Value? && d.scalar.Text?)
    && (flag ==> c in iat.strings && d == Value(Text(iat.strings[c])))
  }

  lemma BatchString(labels: Labels, direct: seq<Claim>, c: Claims)
    ensures var b, d := Batch(labels, direct), LastMatch(direct, labels[FlagOf(c)]);
            match c
            case Nonce => HasBytes(d, 0 in b.flags, b, c)
            case InstanceId => HasBytes(d, 1 in b.flags, b, c)
            case BootSeed => HasBytes(d, 2 in b.flags, b, c)
            case CertRef => HasText(d, 3 in b.flags, b, c)
            case ImplementationId => HasBytes(d, 4 in b.flags, b, c)
            case Profile => HasText(d, 7 in b.flags, b, c)
            case VerifService => HasText(d, 8 in b.flags, b, c)
  {
    BatchStrings(labels, direct, c);
  }

  /**
   The batch, flag by flag: nonce, instance id, boot seed and implementation id are byte strings,
   certification reference, profile and verification service are text strings, client id and
   lifecycle integers, each taken from the last claim with the label of its flag.
   */
  lemma BatchMeaning(root: Node, labels: Labels)
    ensures var b := Batch(labels, SearchMap(Token(root), 0).visit.direct);
            && HasBytes(Claimed(root, labels[0]), 0 in b.flags, b, Nonce)
            && HasBytes(Claimed(root, labels[1]), 1 in b.flags, b, InstanceId)
            && HasBytes(Claimed(root, labels[2]), 2 in b.flags, b, BootSeed)
            && HasText(Claimed(root, labels[3]), 3 in b.flags, b, CertRef)
            && HasBytes(Claimed(root, labels[4]), 4 in b.flags, b, ImplementationId)
            && HasText(Claimed(root, labels[7]), 7 in b.flags, b, Profile)
            && HasText(Claimed(root, labels[8]), 8 in b.flags, b, VerifService)
  {
    var direct := SearchMap(Token(root), 0).visit.direct;
    BatchString(labels, direct, Nonce);
    BatchString(labels, direct, InstanceId);
    BatchString(labels, direct, BootSeed);
    BatchString(labels, direct, CertRef);
    BatchString(labels, direct, ImplementationId);
    BatchString(labels, direct, Profile);
    BatchString(labels, direct, VerifService);
  }

  /** Flag 5 and 6: a client id is taken whatever its value, cut to 32 bits; a lifecycle below UINT32_MAX. */
  lemma BatchNumbers(root: Node, labels: Labels)
    ensures var b := Batch(labels, SearchMap(Token(root), 0).visit.direct);
            var c, l := Claimed(root, labels[5]), Claimed(root, labels[6]);
            && (5 in b.flags <==> c.Value? && c.scalar.Int?)
            && (5 in b.flags ==> b.clientId == Signed(c.scalar.i % 0x1_0000_0000))
            && (6 in b.flags <==> l.Value? && l.scalar.Int? && l.scalar.i < 0xFFFF_FFFF)
            && (6 in b.flags ==> b.lifecycle == l.scalar.i % 0x1_0000_0000)
  {
    BatchIntegers(labels, SearchMap(Token(root), 0).visit.direct);
  }

  // ----- Component count -----

  /**
   The count by the value of the array claim.  Without one it is an error, unless in the IoT
   profile another claim says that there are none: the integer 1, and nothing else.
   */
  lemma CountMeaning(root: Node, sw: Int64, noSw: Int64, iotProfile: bool, prior: UInt32)
    requires SearchMap(Token(root), 0).err == Success && sw != 0 && noSw != 0
    ensures CountAt(Good(root), sw, noSw, iotProfile, prior) ==
            match Claimed(root, sw)
            case ArrayHead(n) =>
              if n == 0 then Outcome(SwComponentsMissing, prior) else Outcome(Success, n % 0x1_0000_0000)
            case NoData =>
              if !iotProfile then Outcome(NotFound, prior)
              else
                (match Claimed(root, noSw)
                 case Value(Int(i)) => if i == 1 then Outcome(Success, 0) else Outcome(SwComponentsMissing, prior)
                 case NoData => Outcome(SwComponentsMissing, prior)
                 case _ => Outcome(CborType, prior))
            case _ => Outcome(CborType, prior)
  {
    LookForClaimed(root, sw, NoData);
    LookForClaimed(root, noSw, NoData);
  }
}
