/**
 Batch fetch against one-by-one fetch, on the token of every claims tree.  The string
 claims always agree; the two integer claims agree exactly outside a range of values
 that the two code paths test differently.
 */
module IatTheorems {
  import opened Common
  import opened Cbor
  import opened CborCursor
  import opened CborRefinement
  import opened IatClaims

  function Good(root: Node): Context {
    Context(Payload(Token(root)), Success)
  }

  /** On the token of a tree a successful search has read everything. */
  lemma SearchFinishes(root: Node)
    ensures var s := SearchMap(Token(root), 0);
            s.err == Success ==> FinishAt(Token(root), s.visit.pos) == FinishOk
  {
    SearchToken(root);
    TokenLaid(root);
    if root.Map? && root.entries != [] {
      LastNext(Token(root), 1, root.entries, 1, 0);
    }
  }

  /** The content a label carries, as the last claim with it says; NoData when there is none. */
  function Claimed(root: Node, wanted: Int64): Data {
    LastMatch(SearchMap(Token(root), 0).visit.direct, wanted)
  }

  /** When the search succeeds, looking for one label fails only because no claim carries it. */
  lemma LookForClaimed(root: Node, wanted: Int64, junk: Data)
    requires SearchMap(Token(root), 0).err == Success
    ensures var d := if wanted == 0 then junk else Claimed(root, wanted);
            LookFor(Token(root), wanted, junk) == Looked(if d == NoData then NotFound else Success, d, FinishOk)
  {
    SearchFinishes(root);
  }

  /** The search, hence the batch, fails iff the token is no map or ends in a hollow claim; each getter fails alike. */
  lemma BatchFailsAlike(root: Node, wanted: Int64, text: bool, junk: Data, prior: Slice)
    ensures var s := SearchMap(Token(root), 0);
            && s.err == (if !root.Map? then CborStructure
                         else if EndsHollow(root.entries) then NotWellFormed else Success)
            && (s.err != Success ==> StringAt(Good(root), wanted, text, junk, prior) == Outcome(s.err, prior))
  {
    SearchToken(root);
  }

  /**
   Label 0: the claims of the token are not looked at.  NOT_FOUND, as promised for a label that is
   missing, comes back iff the slot on the stack happens to be empty.
   */
  lemma LabelZero(root: Node, text: bool, junk: Data, prior: Slice)
    requires SearchMap(Token(root), 0).err == Success
    ensures StringAt(Good(root), 0, text, junk, prior) ==
            if junk == NoData then Outcome(NotFound, prior)
            else if HasKind(junk, if text then TextString else ByteString) then Outcome(Success, junk.scalar.slice)
            else Outcome(CborType, prior)
  {
    LookForClaimed(root, 0, junk);
  }

  /** What a batch result holds of one string claim. */
  datatype Shown = Shown(flagged: bool, stored: bool, slice: Slice)

  function Show(iat: Iat, c: Claims): Shown {
    Shown(FlagOf(c) in iat.flags, c in iat.strings, if c in iat.strings then iat.strings[c] else NULL_SLICE)
  }

  lemma ShowString(iat: Iat, taken: Claims, d: Data, c: Claims)
    ensures Show(TakeString(iat, taken, d), c) ==
            if taken == c && HasKind(d, if IsText(c) then TextString else ByteString)
            then Shown(true, true, d.scalar.slice) else Show(iat, c)
  {
  }

  lemma ShowInteger(iat: Iat, d: Data, c: Claims)
    ensures Show(TakeClientId(iat, d), c) == Show(iat, c)
    ensures Show(TakeLifecycle(iat, d), c) == Show(iat, c)
  {
  }

  lemma BatchStrings(labels: Labels, direct: seq<Claim>, c: Claims)
    ensures var d := LastMatch(direct, labels[FlagOf(c)]);
            Show(Batch(labels, direct), c) ==
            if HasKind(d, if IsText(c) then TextString else ByteString)
            then Shown(true, true, d.scalar.slice) else Shown(false, false, NULL_SLICE)
  {
    var m := seq(9, i requires 0 <= i < 9 => LastMatch(direct, labels[i]));
    var i1 := TakeString(EMPTY_IAT, Nonce, m[0]);
    var i2 := TakeString(i1, InstanceId, m[1]);
    var i3 := TakeString(i2, BootSeed, m[2]);
    var i4 := TakeString(i3, CertRef, m[3]);
    var i5 := TakeString(i4, ImplementationId, m[4]);
    var i6 := TakeClientId(i5, m[5]);
    var i7 := TakeLifecycle(i6, m[6]);
    var i8 := TakeString(i7, Profile, m[7]);
    ShowString(EMPTY_IAT, Nonce, m[0], c);
    ShowString(i1, InstanceId, m[1], c);
    ShowString(i2, BootSeed, m[2], c);
    ShowString(i3, CertRef, m[3], c);
    ShowString(i4, ImplementationId, m[4], c);
    ShowInteger(i5, m[5], c);
    ShowInteger(i6, m[6], c);
    ShowString(i7, Profile, m[7], c);
    ShowString(i8, VerifService, m[8], c);
  }

  /** What a batch result holds of the two integer claims. */
  datatype Numbers = Numbers(clientFlag: bool, clientId: Int32, lifecycleFlag: bool, lifecycle: UInt32)

  function Show2(iat: Iat): Numbers {
    Numbers(CLIENT_ID_FLAG in iat.flags, iat.clientId, SECURITY_LIFECYCLE_FLAG in iat.flags, iat.lifecycle)
  }

  lemma NumbersString(iat: Iat, taken: Claims, d: Data)
    ensures Show2(TakeString(iat, taken, d)) == Show2(iat)
  {
  }

  lemma BatchIntegers(labels: Labels, direct: seq<Claim>)
    ensures var c, l := LastMatch(direct, labels[5]), LastMatch(direct, labels[6]);
            var n := Show2(Batch(labels, direct));
            && n.clientFlag == HasKind(c, Int64Kind)
            && (n.clientFlag ==> n.clientId == Signed(Unsigned(c.scalar.i)))
            && n.lifecycleFlag == (HasKind(l, Int64Kind) && l.scalar.i < UINT32_MAX)
            && (n.lifecycleFlag ==> n.lifecycle == Unsigned(l.scalar.i))
  {
    var m := seq(9, i requires 0 <= i < 9 => LastMatch(direct, labels[i]));
    var i1 := TakeString(EMPTY_IAT, Nonce, m[0]);
    var i2 := TakeString(i1, InstanceId, m[1]);
    var i3 := TakeString(i2, BootSeed, m[2]);
    var i4 := TakeString(i3, CertRef, m[3]);
    var i5 := TakeString(i4, ImplementationId, m[4]);
    var i7 := TakeLifecycle(TakeClientId(i5, m[5]), m[6]);
    var i8 := TakeString(i7, Profile, m[7]);
    NumbersString(EMPTY_IAT, Nonce, m[0]);
    NumbersString(i1, InstanceId, m[1]);
    NumbersString(i2, BootSeed, m[2]);
    NumbersString(i3, CertRef, m[3]);
    NumbersString(i4, ImplementationId, m[4]);
    NumbersString(i7, Profile, m[7]);
    NumbersString(i8, VerifService, m[8]);
  }

  /** Each string claim: flagged in the batch exactly when its getter succeeds, with the same slice. */
  lemma StringsAgree(root: Node, labels: Labels, c: Claims, junk: Data, prior: Slice)
    ensures var s := SearchMap(Token(root), 0);
            var b := Batch(labels, s.visit.direct);
            var r := StringAt(Good(root), labels[FlagOf(c)], IsText(c), junk, prior);
            s.err == Success ==>
              && (FlagOf(c) in b.flags <==> r.err == Success)
              && (r.err == Success ==> c in b.strings && b.strings[c] == r.value)
  {
    SearchFinishes(root);
    BatchStrings(labels, SearchMap(Token(root), 0).visit.direct, c);
  }

  /** The flag is set exactly when the getter succeeds, with the same value. */
  ghost predicate SameNumber(flag: bool, value: int, r: Outcome<int>) {
    (flag <==> r.err == Success) && (flag ==> value == r.value)
  }

  ghost predicate ClientIdAgrees(root: Node, labels: Labels, stale: Int64, prior: Int32) {
    var n := Show2(Batch(labels, SearchMap(Token(root), 0).visit.direct));
    var r := ClientIdAt(Good(root), labels[5], stale, prior);
    SameNumber(n.clientFlag, n.clientId, Outcome(r.err, r.value))
  }

  /** An integer reported as unsigned: QCBOR does that only above the signed 64-bit range. */
  predicate UnsignedUpTo(d: Data, limit: int) {
    d.Value? && d.scalar.UInt? && d.scalar.u <= limit
  }

  predicate Fits32(d: Data) {
    HasKind(d, Int64Kind) && -0x8000_0000 <= d.scalar.i <= 0x7FFF_FFFF
  }

  /** What the getter makes of the claim: an integer of 32 bits, also when it is reported as unsigned. */
  ghost predicate GetsClientId(d: Data, r: Outcome<Int32>) {
    && (Fits32(d) ==> r == Outcome(Success, d.scalar.i))
    && (UnsignedUpTo(d, 0x7FFF_FFFF) ==> r == Outcome(Success, d.scalar.u))
    && (r.err == Success ==> Fits32(d) || UnsignedUpTo(d, 0x7FFF_FFFF))
  }

  lemma ClientIdMeaning(root: Node, wanted: Int64, stale: Int64, prior: Int32)
    requires SearchMap(Token(root), 0).err == Success && wanted != 0
    ensures GetsClientId(Claimed(root, wanted), ClientIdAt(Good(root), wanted, stale, prior))
  {
    LookForClaimed(root, wanted, NoData);
  }

  /** Batch and getter on the same content. */
  lemma ClientIdCompare(d: Data, flag: bool, id: Int32, r: Outcome<Int32>)
    requires GetsClientId(d, r)
    requires flag == HasKind(d, Int64Kind) && (flag ==> id == Signed(Unsigned(d.scalar.i)))
    ensures SameNumber(flag, id, Outcome(r.err, r.value)) <==>
            !(HasKind(d, Int64Kind) && (d.scalar.i < -0x8000_0000 || d.scalar.i > 0x7FFF_FFFF)) &&
            !UnsignedUpTo(d, 0x7FFF_FFFF)
  {
    if Fits32(d) {
      SignedUnsigned(d.scalar.i);
    }
  }

  /** The client id agrees iff it is not an integer outside 32 bits (nor a small one reported as unsigned). */
  lemma ClientIdAgreement(root: Node, labels: Labels, stale: Int64, prior: Int32)
    requires SearchMap(Token(root), 0).err == Success
    ensures var d := Claimed(root, labels[5]);
            ClientIdAgrees(root, labels, stale, prior) <==>
            !(HasKind(d, Int64Kind) && (d.scalar.i < -0x8000_0000 || d.scalar.i > 0x7FFF_FFFF)) &&
            !UnsignedUpTo(d, 0x7FFF_FFFF)
  {
    var n := Show2(Batch(labels, SearchMap(Token(root), 0).visit.direct));
    ClientIdMeaning(root, labels[5], stale, prior);
    BatchIntegers(labels, SearchMap(Token(root), 0).visit.direct);
    var r := ClientIdAt(Good(root), labels[5], stale, prior);
    ClientIdCompare(Claimed(root, labels[5]), n.clientFlag, n.clientId, r);
  }

  /** A token with a single integer claim. */
  function Single(wanted: Int64, i: Int64): Node {
    Map(NoLabel, [Leaf(IntLabel(wanted), Int(i))])
  }

  lemma SingleClaimed(wanted: Int64, i: Int64)
    ensures SearchMap(Token(Single(wanted, i)), 0).err == Success
    ensures Claimed(Single(wanted, i), wanted) == Value(Int(i))
  {
    var root := Single(wanted, i);
    var es := root.entries;
    SearchToken(root);
    assert es[1..] == [] && Seen(es) == es;
    assert Tags(es) == [Tag(es[0])] + Tags(es[1..]) == [Tag(es[0])];
  }

  /** Concretely: with the client id 2^31, which the batch reports and the getter refuses. */
  lemma ClientIdDiffers(labels: Labels, stale: Int64, prior: Int32)
    ensures var root := Single(labels[5], 0x8000_0000);
            SearchMap(Token(root), 0).err == Success && !ClientIdAgrees(root, labels, stale, prior)
  {
    SingleClaimed(labels[5], 0x8000_0000);
    ClientIdAgreement(Single(labels[5], 0x8000_0000), labels, stale, prior);
  }

  ghost predicate LifecycleAgrees(root: Node, labels: Labels, stale: UInt64, prior: UInt32) {
    var n := Show2(Batch(labels, SearchMap(Token(root), 0).visit.direct));
    var r := LifecycleAt(Good(root), labels[6], stale, prior);
    SameNumber(n.lifecycleFlag, n.lifecycle, Outcome(r.err, r.value))
  }

  /** The lifecycle agrees iff it is neither negative nor the largest 32-bit value. */
  lemma LifecycleAgreement(root: Node, labels: Labels, stale: UInt64, prior: UInt32)
    requires SearchMap(Token(root), 0).err == Success
    ensures var d := Claimed(root, labels[6]);
            LifecycleAgrees(root, labels, stale, prior) <==>
            !(HasKind(d, Int64Kind) && (d.scalar.i < 0 || d.scalar.i == UINT32_MAX)) &&
            !UnsignedUpTo(d, UINT32_MAX)
  {
    LookForClaimed(root, labels[6], NoData);
    BatchIntegers(labels, SearchMap(Token(root), 0).visit.direct);
  }

  /** Concretely: with the lifecycle UINT32_MAX, which the batch leaves out and the getter returns. */
  lemma LifecycleDiffers(labels: Labels, stale: UInt64, prior: UInt32)
    ensures var root := Single(labels[6], UINT32_MAX);
            SearchMap(Token(root), 0).err == Success && !LifecycleAgrees(root, labels, stale, prior)
  {
    SingleClaimed(labels[6], UINT32_MAX);
    LifecycleAgreement(Single(labels[6], UINT32_MAX), labels, stale, prior);
  }
}
