/**
 What a caller may rely on when fetching software components, and where the code does
 not meet its interface: containers without content, and a search that runs off the
 end of the token instead of reporting that nothing was found.
 */
module SwComponentTheorems {
  import opened Common
  import opened Cbor
  import opened CborCursor
  import opened CborRefinement
  import opened SwComponents
  import opened SwComponentTree
  import opened IatClaims
  import IatTheorems

  // ----- What a successful decode holds -----

  ghost predicate AllTyped(labels: SwComponents.Labels, direct: seq<Claim>) {
    forall i, f :: 0 <= i < |direct| && direct[i].key == IntLabel(labels.Of(f)) ==> Typed(direct[i].data, f)
  }

  /** Field `f` holds the last claim with its label, or nothing, and its flag says which. */
  ghost predicate Holds(labels: SwComponents.Labels, direct: seq<Claim>, comp: Component, f: Field) {
    var d := LastMatch(direct, labels.Of(f));
    if d == NoData then SwComponents.FlagOf(f) !in comp.flags && comp.Get(f) == NULL_SLICE
    else SwComponents.FlagOf(f) in comp.flags && Typed(d, f) && comp.Get(f) == d.scalar.slice
  }

  lemma LookupMeaning(labels: SwComponents.Labels, c: Claim)
    requires labels.Distinct()
    ensures Lookup(labels, c).Known? ==> c.key == IntLabel(labels.Of(Lookup(labels, c).field))
    ensures forall f :: c.key == IntLabel(labels.Of(f)) ==> Lookup(labels, c) == Known(f)
  {
    forall f | c.key == IntLabel(labels.Of(f)) ensures Lookup(labels, c) == Known(f) {
      match f {
        case MeasurementType => case MeasurementVal => case Version => case SignerId => case MeasurementDesc =>
      }
      var k := Lookup(labels, c);
      assert k.Known? ==> labels.Of(k.field) == labels.Of(f);
    }
  }

  lemma SetMeaning(comp: Component, f: Field, s: Slice, g: Field)
    ensures var c := comp.Set(f, s);
            && c.Get(g) == (if g == f then s else comp.Get(g))
            && (SwComponents.FlagOf(g) in c.flags <==> g == f || SwComponents.FlagOf(g) in comp.flags)
  {
  }

  /** Decoding succeeds iff every known claim has its type, and the last duplicate wins. */
  lemma {:induction false} FoldMeaning(labels: SwComponents.Labels, direct: seq<Claim>)
    requires labels.Distinct()
    ensures var r := Fold(labels, EMPTY, direct);
            && (r.ok <==> AllTyped(labels, direct))
            && (r.ok ==> forall f :: Holds(labels, direct, r.comp, f))
    decreases |direct|
  {
    if direct != [] {
      var n := |direct| - 1;
      var pre, c := direct[..n], direct[n];
      assert direct == pre + [c];
      FoldMeaning(labels, pre);
      FoldAppend(labels, EMPTY, pre, [c]);
      LookupMeaning(labels, c);
      assert AllTyped(labels, direct) ==> AllTyped(labels, pre) by {
        assert forall i :: 0 <= i < n ==> pre[i] == direct[i];
      }
      var r := Fold(labels, EMPTY, pre);
      var k := Lookup(labels, c);
      if r.ok && (k.Unknown? || Typed(c.data, k.field)) {
        var r' := Fold(labels, EMPTY, direct);
        assert [c][1..] == [];
        forall f ensures Holds(labels, direct, r'.comp, f) {
          assert Holds(labels, pre, r.comp, f);
          if k.Known? {
            SetMeaning(r.comp, k.field, c.data.scalar.slice, f);
          }
        }
      }
    }
  }

  // ----- Nested data never counts -----

  lemma {:induction false} SameTags(a: seq<Node>, b: seq<Node>)
    requires Tags(a) == Tags(b)
    ensures Tags(Seen(a)) == Tags(Seen(b)) && EndsHollow(a) == EndsHollow(b)
    decreases |a|
  {
    if a != [] {
      assert Tags(a)[0] == Tag(a[0]) && Tags(a)[1..] == Tags(a[1..]);
      assert b != [] && Tags(b)[0] == Tag(b[0]) && Tags(b)[1..] == Tags(b[1..]);
      SameTags(a[1..], b[1..]);
      assert |a| == 1 <==> |b| == 1 by {
        TagsLength(a);
        TagsLength(b);
      }
    }
  }

  lemma {:induction false} TagsLength(ns: seq<Node>)
    ensures |Tags(ns)| == |ns|
  {
    if ns != [] {
      TagsLength(ns[1..]);
    }
  }

  /** Two components that differ only inside their claims decode alike. */
  lemma NestedIgnored(labels: SwComponents.Labels, k: Label, a: seq<Node>, b: seq<Node>, more: bool, prior: Component)
    requires Tags(a) == Tags(b)
    ensures DecodeTree(labels, TheNode(Map(k, a), more), prior) == DecodeTree(labels, TheNode(Map(k, b), more), prior)
  {
    SameTags(a, b);
  }

  // ----- The component array -----

  /** A token whose claims are `pre`, the component array, and `post`. */
  function SwToken(labels: SwComponents.Labels, pre: seq<Node>, comps: seq<Node>, post: seq<Node>): Node {
    Map(NoLabel, pre + [Array(IntLabel(labels.swComponents), comps)] + post)
  }

  /** The array can be reached: nothing before it has its label or lacks content. */
  ghost predicate Reachable(labels: SwComponents.Labels, pre: seq<Node>) {
    !Carries(pre, labels.swComponents) && NoHollow(pre)
  }

  lemma ArrayReached(labels: SwComponents.Labels, pre: seq<Node>, comps: seq<Node>, post: seq<Node>,
                     index: nat, prior: Component)
    requires Reachable(labels, pre)
    ensures GetAt(labels, Token(SwToken(labels, pre, comps, post)), index, prior) ==
            DecodeTree(labels, if comps != [] then PickTree(comps, post != [], index)
                               else PickTree(post, false, index), prior)
  {
    var from := [Array(IntLabel(labels.swComponents), comps)] + post;
    assert pre + [Array(IntLabel(labels.swComponents), comps)] + post == pre + from;
    LocateMeaning(pre, from, labels.swComponents);
    GetRefines(labels, SwToken(labels, pre, comps, post), index, prior);
    assert from[1..] == post;
  }

  ghost predicate AllFilled(ns: seq<Node>) {
    forall i :: 0 <= i < |ns| ==> Kids(ns[i]) != []
  }

  /** Picking a member, said by position. */
  lemma {:induction false} PickMeaning(ns: seq<Node>, more: bool, index: nat)
    ensures index < |ns| && AllFilled(ns[..index + 1]) ==>
              PickTree(ns, more, index) == TheNode(ns[index], index + 1 < |ns| || more)
    ensures |ns| <= index && AllFilled(ns) ==>
              PickTree(ns, more, index) == NoNode(if more then NotFound else NotWellFormed)
    ensures (exists j :: 0 <= j <= index && j < |ns| && Kids(ns[j]) == []) ==>
              PickTree(ns, more, index) == NoNode(NotFound)
  {
    if ns != [] && Kids(ns[0]) != [] && index > 0 {
      PickMeaning(ns[1..], more, index - 1);
      if index < |ns| {
        assert ns[1..][..index] == ns[..index + 1][1..];
      }
      if j :| 0 <= j <= index && j < |ns| && Kids(ns[j]) == [] {
        assert ns[1..][j - 1] == ns[j];
      }
    } else if ns != [] && index < |ns| {
      assert ns[..index + 1][0] == ns[0];
    }
  }

  /** What `rest` says of the field, if anything, is what `seen` said of it already. */
  ghost predicate Settled(labels: SwComponents.Labels, seen: seq<Claim>, rest: seq<Claim>, f: Field) {
    LastMatch(rest, labels.Of(f)) != NoData ==> LastMatch(rest, labels.Of(f)) == LastMatch(seen, labels.Of(f))
  }

  /**
   A map behind filled members.  The answer is that of the claims up to the first hollow one (all
   claims, when none is hollow): a type error iff one of them has a wrong type; otherwise an error
   iff the map and the token end with a hollow claim; otherwise exactly these claims.
   */
  lemma ComponentFetched(labels: SwComponents.Labels, pre: seq<Node>, comps: seq<Node>, post: seq<Node>,
                         index: nat, prior: Component)
    requires labels.Distinct() && Reachable(labels, pre)
    requires index < |comps| && AllFilled(comps[..index + 1]) && comps[index].Map?
    ensures var r := GetAt(labels, Token(SwToken(labels, pre, comps, post)), index, prior);
            var es := comps[index].entries;
            var more, seen := index + 1 < |comps| || post != [], Tags(Seen(es));
            && (NoHollow(es) ==> Seen(es) == es && !EndsHollow(es))
            && r.err == (if !AllTyped(labels, seen) then CborType
                         else if EndsHollow(es) && !more then NotWellFormed else Success)
            && (r.err == Success ==> forall f :: Holds(labels, seen, r.comp, f))
  {
    ArrayReached(labels, pre, comps, post, index, prior);
    PickMeaning(comps, post != [], index);
    SeenPrefix(comps[index].entries);
    FoldMeaning(labels, Tags(Seen(comps[index].entries)));
  }

  /**
   The fetch gives the component of all the map's claims iff a claim before the cut already has a
   wrong type, or the claims behind the cut have their types and say nothing new, and the walk
   does not have to leave the token to find the end of the map.
   */
  lemma HollowCut(labels: SwComponents.Labels, pre: seq<Node>, comps: seq<Node>, post: seq<Node>,
                  index: nat, prior: Component)
    requires labels.Distinct() && Reachable(labels, pre)
    requires index < |comps| && AllFilled(comps[..index + 1]) && comps[index].Map?
    ensures var es := comps[index].entries;
            && Seen(es) <= es
            && var seen, rest := Tags(Seen(es)), Tags(es[|Seen(es)|..]);
               GetAt(labels, Token(SwToken(labels, pre, comps, post)), index, prior) == Verdict(labels, Tags(es), true)
               <==> (|| !AllTyped(labels, seen)
                     || (&& AllTyped(labels, rest)
                         && (forall f :: Settled(labels, seen, rest, f))
                         && (EndsHollow(es) ==> index + 1 < |comps| || post != [])))
  {
    var es, more := comps[index].entries, index + 1 < |comps| || post != [];
    ArrayReached(labels, pre, comps, post, index, prior);
    PickMeaning(comps, post != [], index);
    MapCut(labels, comps[index].key, es, more, prior);
    var seen, rest := Tags(Seen(es)), Tags(es[|Seen(es)|..]);
    FoldMeaning(labels, seen);
    if AllTyped(labels, seen) {
      TagsFilled(es[|Seen(es)|..]);
      FoldUnchanged(labels, seen, rest);
    }
  }

  /** The cut, told by folding the claims before and behind it. */
  lemma MapCut(labels: SwComponents.Labels, k: Label, entries: seq<Node>, more: bool, prior: Component)
    ensures Seen(entries) <= entries
    ensures var seen := Fold(labels, EMPTY, Tags(Seen(entries)));
            var rest := Tags(entries[|Seen(entries)|..]);
            DecodeTree(labels, TheNode(Map(k, entries), more), prior) == Verdict(labels, Tags(entries), true) <==>
            !seen.ok || (Fold(labels, seen.comp, rest) == seen && (EndsHollow(entries) ==> more))
  {
    SeenPrefix(entries);
    var cut := |Seen(entries)|;
    assert Seen(entries) == entries[..cut] && entries == entries[..cut] + entries[cut..];
    TagsAppend(entries[..cut], entries[cut..]);
    FoldAppend(labels, EMPTY, Tags(Seen(entries)), Tags(entries[cut..]));
  }

  ghost predicate Filled(direct: seq<Claim>) {
    forall i :: 0 <= i < |direct| ==> direct[i].data != NoData
  }

  lemma {:induction false} TagsFilled(ns: seq<Node>)
    ensures Filled(Tags(ns))
  {
    if ns != [] {
      TagsFilled(ns[1..]);
    }
  }

  lemma {:induction false} LastMatchAppend(a: seq<Claim>, b: seq<Claim>, wanted: Int64)
    requires Filled(b)
    ensures LastMatch(a + b, wanted) ==
            if LastMatch(b, wanted) != NoData then LastMatch(b, wanted) else LastMatch(a, wanted)
    decreases |b|
  {
    if b == [] {
      assert a + b == a;
    } else {
      var n := |b| - 1;
      assert (a + b)[|a + b| - 1] == b[n] && (a + b)[..|a + b| - 1] == a + b[..n];
      LastMatchAppend(a, b[..n], wanted);
    }
  }

  lemma AllTypedAppend(labels: SwComponents.Labels, a: seq<Claim>, b: seq<Claim>)
    ensures AllTyped(labels, a + b) <==> AllTyped(labels, a) && AllTyped(labels, b)
  {
    assert forall i :: 0 <= i < |a| ==> (a + b)[i] == a[i];
    assert forall i :: 0 <= i < |b| ==> (a + b)[|a| + i] == b[i];
  }

  const KNOWN_FLAGS: set<nat> := {0, 1, 3, 5, 6}

  lemma {:induction false} FlagsKnown(labels: SwComponents.Labels, comp: Component, direct: seq<Claim>)
    requires comp.flags <= KNOWN_FLAGS
    ensures Fold(labels, comp, direct).comp.flags <= KNOWN_FLAGS
    decreases |direct|
  {
    if direct != [] {
      var k := Lookup(labels, direct[0]);
      if k.Unknown? {
        FlagsKnown(labels, comp, direct[1..]);
      } else if Typed(direct[0].data, k.field) {
        FlagsKnown(labels, comp.Set(k.field, direct[0].data.scalar.slice), direct[1..]);
      }
    }
  }

  /** Components are equal iff every field has the same content and flag. */
  lemma SameComponent(a: Component, b: Component)
    requires a.flags <= KNOWN_FLAGS && b.flags <= KNOWN_FLAGS
    requires forall f ::
               a.Get(f) == b.Get(f) && (SwComponents.FlagOf(f) in a.flags <==> SwComponents.FlagOf(f) in b.flags)
    ensures a == b
  {
    assert a.Get(MeasurementType) == b.Get(MeasurementType) && a.Get(MeasurementVal) == b.Get(MeasurementVal);
    assert a.Get(Version) == b.Get(Version) && a.Get(SignerId) == b.Get(SignerId);
    assert a.Get(MeasurementDesc) == b.Get(MeasurementDesc);
    assert SwComponents.FlagOf(MeasurementType) == 0 && SwComponents.FlagOf(MeasurementVal) == 1;
    assert SwComponents.FlagOf(Version) == 3 && SwComponents.FlagOf(SignerId) == 5;
    assert SwComponents.FlagOf(MeasurementDesc) == 6;
    assert forall x :: x in KNOWN_FLAGS ==> (x in a.flags <==> x in b.flags);
  }

  /** One field, with and without the claims of `rest`. */
  lemma FieldUnchanged(labels: SwComponents.Labels, seen: seq<Claim>, rest: seq<Claim>,
                       a: Component, b: Component, f: Field)
    requires Filled(rest)
    requires Holds(labels, seen, a, f) && Holds(labels, seen + rest, b, f)
    ensures Settled(labels, seen, rest, f) <==>
            a.Get(f) == b.Get(f) && (SwComponents.FlagOf(f) in a.flags <==> SwComponents.FlagOf(f) in b.flags)
  {
    LastMatchAppend(seen, rest, labels.Of(f));
  }

  /** Claims add nothing to a component iff they have their types and repeat what it holds. */
  lemma FoldUnchanged(labels: SwComponents.Labels, seen: seq<Claim>, rest: seq<Claim>)
    requires labels.Distinct() && AllTyped(labels, seen) && Filled(rest)
    ensures var s := Fold(labels, EMPTY, seen);
            Fold(labels, s.comp, rest) == s <==> AllTyped(labels, rest) && forall f :: Settled(labels, seen, rest, f)
  {
    var s, all := Fold(labels, EMPTY, seen), Fold(labels, EMPTY, seen + rest);
    FoldMeaning(labels, seen);
    FoldMeaning(labels, seen + rest);
    FoldAppend(labels, EMPTY, seen, rest);
    AllTypedAppend(labels, seen, rest);
    FlagsKnown(labels, EMPTY, seen);
    FlagsKnown(labels, EMPTY, seen + rest);
    if AllTyped(labels, rest) {
      forall f
        ensures Settled(labels, seen, rest, f) <==>
          s.comp.Get(f) == all.comp.Get(f) &&
          (SwComponents.FlagOf(f) in s.comp.flags <==> SwComponents.FlagOf(f) in all.comp.flags)
      {
        FieldUnchanged(labels, seen, rest, s.comp, all.comp, f);
      }
      if forall f :: Settled(labels, seen, rest, f) {
        SameComponent(s.comp, all.comp);
      }
    }
  }

  /** Concretely: behind an empty array inside a component its version is lost. */
  lemma VersionLost(labels: SwComponents.Labels, s: Slice, prior: Component)
    requires labels.Distinct()
    ensures var entries := [Array(OtherLabel, []), Leaf(IntLabel(labels.version), Text(s))];
            var token := Token(SwToken(labels, [], [Map(NoLabel, entries)], []));
            && GetAt(labels, token, 0, prior) == Decoded(Success, EMPTY)
            && Verdict(labels, Tags(entries), true) == Decoded(Success, EMPTY.Set(Version, s))
  {
    var hollow, leaf := Array(OtherLabel, []), Leaf(IntLabel(labels.version), Text(s));
    var entries := [hollow, leaf];
    ArrayReached(labels, [], [Map(NoLabel, entries)], [], 0, prior);
    assert Seen(entries) == [hollow] && !EndsHollow(entries);
    OneTag(hollow);
    OneTag(leaf);
    assert entries[1..] == [leaf] && Tags(entries) == [Tag(hollow)] + Tags([leaf]);
    assert Tags(entries)[1..] == [Tag(leaf)];
    LookupMeaning(labels, Tag(leaf));
    assert Tag(leaf).key == IntLabel(labels.Of(Version));
    OneClaim(labels, Tag(hollow));
    OneClaim(labels, Tag(leaf));
  }

  lemma OneTag(n: Node)
    ensures Tags([n]) == [Tag(n)]
  {
    assert [n][1..] == [];
    assert Tags([n]) == [Tag(n)] + Tags([n][1..]);
  }

  /** A component of a single claim. */
  lemma OneClaim(labels: SwComponents.Labels, c: Claim)
    ensures var k := Lookup(labels, c);
            Fold(labels, EMPTY, [c]) ==
            if k.Unknown? then Folded(true, EMPTY)
            else if Typed(c.data, k.field) then Folded(true, EMPTY.Set(k.field, c.data.scalar.slice))
            else Folded(false, EMPTY)
  {
    assert [c][1..] == [];
  }

  lemma {:induction false} TagsAppend(a: seq<Node>, b: seq<Node>)
    ensures Tags(a + b) == Tags(a) + Tags(b)
  {
    if a == [] {
      assert a + b == b;
    } else {
      assert (a + b)[1..] == a[1..] + b;
      TagsAppend(a[1..], b);
    }
  }

  // ----- Count and index -----

  ghost predicate AllFilledMaps(ns: seq<Node>) {
    forall i :: 0 <= i < |ns| ==> ns[i].Map? && ns[i].entries != []
  }

  lemma {:induction false} LastMatchTags(pre: seq<Claim>, c: Claim, post: seq<Claim>, wanted: Int64)
    requires c.key == IntLabel(wanted)
    requires forall i :: 0 <= i < |post| ==> post[i].key != IntLabel(wanted)
    ensures LastMatch(pre + [c] + post, wanted) == c.data
    decreases |post|
  {
    var all := pre + [c] + post;
    if post == [] {
      assert all[|all| - 1] == c;
    } else {
      var m := |post| - 1;
      assert all[|all| - 1] == post[m];
      assert all[..|all| - 1] == pre + [c] + post[..m];
      LastMatchTags(pre, c, post[..m], wanted);
    }
  }

  lemma {:induction false} NoTag(ns: seq<Node>, wanted: Int64)
    requires !Carries(ns, wanted)
    ensures forall i :: 0 <= i < |Tags(ns)| ==> Tags(ns)[i].key != IntLabel(wanted)
  {
    if ns != [] {
      assert forall i :: 0 <= i < |ns[1..]| ==> ns[1..][i] == ns[i + 1];
      NoTag(ns[1..], wanted);
    }
  }

  lemma NoHollowFirst(ns: seq<Node>)
    requires ns != []
    ensures NoHollow(ns) <==> !Hollow(ns[0]) && NoHollow(ns[1..])
  {
    assert forall i :: 0 < i < |ns| ==> ns[i] == ns[1..][i - 1];
    assert forall i :: 0 <= i < |ns[1..]| ==> ns[1..][i] == ns[i + 1];
  }

  /** What a scan sees of two runs of siblings. */
  lemma {:induction false} SeenAppend(a: seq<Node>, b: seq<Node>)
    ensures Seen(a + b) == if NoHollow(a) then a + Seen(b) else Seen(a)
    decreases |a|
  {
    if a == [] {
      assert a + b == b && a + Seen(b) == Seen(b);
    } else {
      var n, rest := a[0], a[1..];
      AppendFirst(a, b);
      NoHollowFirst(a);
      SeenAppend(rest, b);
      SeenOn(a + b, n, rest + b);
      SeenOn(a, n, rest);
      AppendFirst(a, Seen(b));
    }
  }

  lemma AppendFirst<T>(a: seq<T>, b: seq<T>)
    requires a != []
    ensures (a + b)[0] == a[0] && (a + b)[1..] == a[1..] + b
    ensures a + b == [a[0]] + (a[1..] + b)
  {
  }

  lemma SeenOn(ns: seq<Node>, n: Node, rest: seq<Node>)
    requires ns != [] && ns[0] == n && ns[1..] == rest
    ensures Seen(ns) == if Hollow(n) then [n] else [n] + Seen(rest)
  {
  }

  lemma {:induction false} LastMatchNone(direct: seq<Claim>, wanted: Int64)
    requires forall i :: 0 <= i < |direct| ==> direct[i].key != IntLabel(wanted)
    ensures LastMatch(direct, wanted) == NoData
    decreases |direct|
  {
    if direct != [] {
      LastMatchNone(direct[..|direct| - 1], wanted);
    }
  }

  /** The last array with the label is what the search finds, when no hollow claim stands before it. */
  lemma LastArrayMatched(labels: SwComponents.Labels, pre: seq<Node>, comps: seq<Node>, post: seq<Node>)
    requires NoHollow(pre) && !Carries(post, labels.swComponents) && comps != []
    ensures LastMatch(Tags(Seen(SwToken(labels, pre, comps, post).entries)), labels.swComponents) == ArrayHead(|comps|)
  {
    var sw := Array(IntLabel(labels.swComponents), comps);
    SeenThrough(pre, sw, post);
    TagsThrough(pre, sw, Seen(post));
    SeenPrefix(post);
    NoTag(Seen(post), labels.swComponents);
    LastMatchTags(Tags(pre), Tag(sw), Tags(Seen(post)), labels.swComponents);
  }

  lemma SeenThrough(pre: seq<Node>, n: Node, post: seq<Node>)
    requires NoHollow(pre) && !Hollow(n)
    ensures Seen(pre + [n] + post) == pre + ([n] + Seen(post))
  {
    var from := [n] + post;
    assert pre + [n] + post == pre + from;
    SeenAppend(pre, from);
    AppendFirst([n], post);
    assert [n][1..] + post == post;
    SeenOn(from, n, post);
  }

  lemma TagsThrough(pre: seq<Node>, n: Node, post: seq<Node>)
    ensures Tags(pre + ([n] + post)) == Tags(pre) + [Tag(n)] + Tags(post)
  {
    TagsAppend(pre, [n] + post);
    TagsAppend([n], post);
    OneTag(n);
    assert Tags(pre) + ([Tag(n)] + Tags(post)) == Tags(pre) + [Tag(n)] + Tags(post);
  }

  /** What the search finds of the only array: its head, unless a hollow claim stands before it. */
  lemma ArrayMatched(labels: SwComponents.Labels, pre: seq<Node>, comps: seq<Node>, post: seq<Node>)
    requires !Carries(pre, labels.swComponents) && !Carries(post, labels.swComponents) && comps != []
    ensures LastMatch(Tags(Seen(SwToken(labels, pre, comps, post).entries)), labels.swComponents) ==
            if NoHollow(pre) then ArrayHead(|comps|) else NoData
  {
    if NoHollow(pre) {
      LastArrayMatched(labels, pre, comps, post);
    } else {
      var from := [Array(IntLabel(labels.swComponents), comps)] + post;
      assert pre + [Array(IntLabel(labels.swComponents), comps)] + post == pre + from;
      SeenAppend(pre, from);
      SeenPrefix(pre);
      NoTag(Seen(pre), labels.swComponents);
      LastMatchNone(Tags(Seen(pre)), labels.swComponents);
    }
  }

  /**
   The last array with the label is counted: its members, if no hollow claim stands before it and
   the first hollow claim is not the last claim of the token.  For the only array, that is the
   exact condition.
   */
  lemma CountIsLength(labels: SwComponents.Labels, pre: seq<Node>, comps: seq<Node>, post: seq<Node>,
                      noSw: Int64, iotProfile: bool, prior: UInt32)
    requires labels.swComponents != 0 && !Carries(post, labels.swComponents)
    requires 0 < |comps| <= UINT32_MAX
    ensures var root := SwToken(labels, pre, comps, post);
            var r := CountAt(IatTheorems.Good(root), labels.swComponents, noSw, iotProfile, prior);
            && (NoHollow(pre) && !EndsHollow(root.entries) ==> r == Outcome(Success, |comps|))
            && (EndsHollow(root.entries) ==> r == Outcome(NotWellFormed, prior))
            && (!Carries(pre, labels.swComponents) ==>
                  && (r == Outcome(Success, |comps|) <==> NoHollow(pre) && !EndsHollow(root.entries))
                  && (!EndsHollow(root.entries) && !NoHollow(pre) && !iotProfile ==> r == Outcome(NotFound, prior)))
  {
    var root := SwToken(labels, pre, comps, post);
    SearchToken(root);
    if NoHollow(pre) {
      LastArrayMatched(labels, pre, comps, post);
    } else if !Carries(pre, labels.swComponents) {
      ArrayMatched(labels, pre, comps, post);
    }
    if !EndsHollow(root.entries) && (NoHollow(pre) || !Carries(pre, labels.swComponents)) {
      CountClaimed(root, labels.swComponents, |comps|, noSw, iotProfile, prior);
    }
  }

  /** Concretely: one component, and an empty map behind the array or before it; no count is given. */
  lemma CountLost(labels: SwComponents.Labels, noSw: Int64, prior: UInt32)
    requires labels.swComponents != 0
    ensures var comps, empty := [Map(NoLabel, [Leaf(OtherLabel, OtherScalar)])], [Map(OtherLabel, [])];
            var behind := IatTheorems.Good(SwToken(labels, [], comps, empty));
            var before := IatTheorems.Good(SwToken(labels, empty, comps, []));
            && CountAt(behind, labels.swComponents, noSw, false, prior) == Outcome(NotWellFormed, prior)
            && CountAt(before, labels.swComponents, noSw, false, prior) == Outcome(NotFound, prior)
  {
    var comps, hollow := [Map(NoLabel, [Leaf(OtherLabel, OtherScalar)])], Map(OtherLabel, []);
    var sw := Array(IntLabel(labels.swComponents), comps);
    CountIsLength(labels, [], comps, [hollow], noSw, false, prior);
    CountIsLength(labels, [hollow], comps, [], noSw, false, prior);
    assert [] + [sw] + [hollow] == [sw, hollow] && [sw, hollow][1..] == [hollow];
    assert [hollow] + [sw] + [] == [hollow, sw];
  }

  /** The count, from what the search found of the array. */
  lemma CountClaimed(root: Node, sw: Int64, count: nat, noSw: Int64, iotProfile: bool, prior: UInt32)
    requires SearchMap(Token(root), 0).err == Success && sw != 0 && 0 < count <= UINT32_MAX
    requires IatTheorems.Claimed(root, sw) in {ArrayHead(count), NoData}
    ensures var r := CountAt(IatTheorems.Good(root), sw, noSw, iotProfile, prior);
            && (r == Outcome(Success, count) <==> IatTheorems.Claimed(root, sw) == ArrayHead(count))
            && (IatTheorems.Claimed(root, sw) == NoData && !iotProfile ==> r == Outcome(NotFound, prior))
  {
    IatTheorems.LookForClaimed(root, sw, NoData);
  }

  /** A hollow claim before the array hides it from the fetch, whatever the index. */
  lemma ArrayHidden(labels: SwComponents.Labels, pre: seq<Node>, comps: seq<Node>, post: seq<Node>,
                    index: nat, prior: Component)
    requires !Carries(pre, labels.swComponents) && !NoHollow(pre)
    ensures GetAt(labels, Token(SwToken(labels, pre, comps, post)), index, prior) == Decoded(NotWellFormed, prior)
  {
    var from := [Array(IntLabel(labels.swComponents), comps)] + post;
    assert pre + [Array(IntLabel(labels.swComponents), comps)] + post == pre + from;
    LocateMeaning(pre, from, labels.swComponents);
    GetRefines(labels, SwToken(labels, pre, comps, post), index, prior);
  }

  /**
   With at least one member, all of them filled maps: an index below their number is never reported
   as not found; an index at or above it never succeeds.  The latter is reported as not found only
   if a claim follows the array (at the end of the token the walk runs off the stream).  Behind a
   hollow claim every index gives the same error.
   */
  lemma IndexWithinCount(labels: SwComponents.Labels, pre: seq<Node>, comps: seq<Node>, post: seq<Node>,
                         index: nat, prior: Component)
    requires !Carries(pre, labels.swComponents) && comps != [] && AllFilledMaps(comps)
    ensures var r := GetAt(labels, Token(SwToken(labels, pre, comps, post)), index, prior);
            if !NoHollow(pre) then r == Decoded(NotWellFormed, prior)
            else if index < |comps| then r.err != NotFound && r.err != CborStructure
            else r == Decoded(if post != [] then NotFound else NotWellFormed, prior)
  {
    if !NoHollow(pre) {
      ArrayHidden(labels, pre, comps, post, index, prior);
      return;
    }
    ArrayReached(labels, pre, comps, post, index, prior);
    PickMeaning(comps, post != [], index);
    if index < |comps| {
      assert forall i :: 0 <= i <= index ==> comps[..index + 1][i] == comps[i];
    }
  }

  /** A token with two component arrays, other claims around them. */
  function TwoArrays(labels: SwComponents.Labels, pre: seq<Node>, first: seq<Node>, mid: seq<Node>,
                     last: seq<Node>, post: seq<Node>): Node
  {
    SwToken(labels, pre, first, mid + [Array(IntLabel(labels.swComponents), last)] + post)
  }

  lemma TwoArraysLast(labels: SwComponents.Labels, pre: seq<Node>, first: seq<Node>, mid: seq<Node>,
                      last: seq<Node>, post: seq<Node>)
    ensures var before := pre + [Array(IntLabel(labels.swComponents), first)] + mid;
            && TwoArrays(labels, pre, first, mid, last, post) == SwToken(labels, before, last, post)
            && (NoHollow(pre) && first != [] && NoHollow(mid) ==> NoHollow(before))
  {
    var a, b := Array(IntLabel(labels.swComponents), first), Array(IntLabel(labels.swComponents), last);
    assert pre + [a] + (mid + [b] + post) == (pre + [a] + mid) + [b] + post;
  }

  /**
   The count is that of the last array with the label, the fetch walks the first one.  So indexes
   below the count are never reported as not found iff the last array has no more members than
   the first; and only then does no index at or above the count have a member to give.
   */
  lemma CountAgainstIndex(labels: SwComponents.Labels, pre: seq<Node>, first: seq<Node>, mid: seq<Node>,
                          last: seq<Node>, post: seq<Node>, noSw: Int64, iotProfile: bool,
                          count: UInt32, prior: Component)
    requires labels.swComponents != 0
    requires Reachable(labels, pre) && NoHollow(mid) && !Carries(post, labels.swComponents)
    requires first != [] && AllFilledMaps(first) && 0 < |last| <= UINT32_MAX
    requires !EndsHollow(TwoArrays(labels, pre, first, mid, last, post).entries)
    ensures var root := TwoArrays(labels, pre, first, mid, last, post);
            && CountAt(IatTheorems.Good(root), labels.swComponents, noSw, iotProfile, count) == Outcome(Success, |last|)
            && ((forall index: nat :: index < |last| ==> GetAt(labels, Token(root), index, prior).err != NotFound)
                <==> |last| <= |first|)
            && ((forall index: nat :: index >= |last| ==> GetAt(labels, Token(root), index, prior).err == NotFound)
                <==> |first| <= |last|)
  {
    var root := TwoArrays(labels, pre, first, mid, last, post);
    TwoArraysLast(labels, pre, first, mid, last, post);
    var sw := Array(IntLabel(labels.swComponents), first);
    CountIsLength(labels, pre + [sw] + mid, last, post, noSw, iotProfile, count);
    forall index: nat
      ensures GetAt(labels, Token(root), index, prior).err == NotFound <==> |first| <= index
    {
      IndexWithinCount(labels, pre, first, mid + [Array(IntLabel(labels.swComponents), last)] + post, index, prior);
    }
    assert |first| < |last| ==> GetAt(labels, Token(root), |first|, prior).err == NotFound;
    assert |last| < |first| ==> GetAt(labels, Token(root), |last|, prior).err != NotFound;
  }

  /** Concretely: one component, then an array of two with the same label; the count is 2, index 1 is not found. */
  lemma CountBeyondIndex(labels: SwComponents.Labels, noSw: Int64, count: UInt32, prior: Component)
    requires labels.swComponents != 0
    ensures var m := Map(NoLabel, [Leaf(OtherLabel, OtherScalar)]);
            var root := SwToken(labels, [], [m], [Array(IntLabel(labels.swComponents), [m, m])]);
            && CountAt(IatTheorems.Good(root), labels.swComponents, noSw, false, count) == Outcome(Success, 2)
            && GetAt(labels, Token(root), 1, prior) == Decoded(NotFound, prior)
  {
    var m := Map(NoLabel, [Leaf(OtherLabel, OtherScalar)]);
    var a, b := Array(IntLabel(labels.swComponents), [m]), Array(IntLabel(labels.swComponents), [m, m]);
    assert [] + [b] + [] == [b] && [] + [a] + [b] == [a, b] == [a] + [b] + [];
    SeenPrefix([a, b]);
    CountIsLength(labels, [a], [m, m], [], noSw, false, count);
    IndexWithinCount(labels, [], [m], [b], 1, prior);
  }

  /** A member without content (a scalar, an empty map) hides itself and all members behind it. */
  lemma ContentlessMemberHides(labels: SwComponents.Labels, pre: seq<Node>, comps: seq<Node>, post: seq<Node>,
                               j: nat, index: nat, prior: Component)
    requires Reachable(labels, pre) && j <= index && j < |comps| && Kids(comps[j]) == []
    ensures GetAt(labels, Token(SwToken(labels, pre, comps, post)), index, prior) == Decoded(NotFound, prior)
  {
    ArrayReached(labels, pre, comps, post, index, prior);
    PickMeaning(comps, post != [], index);
  }

  /** An empty array: an index succeeds iff the claims behind the array have a component there. */
  lemma EmptyArray(labels: SwComponents.Labels, pre: seq<Node>, post: seq<Node>, index: nat, prior: Component)
    requires labels.Distinct() && Reachable(labels, pre)
    ensures GetAt(labels, Token(SwToken(labels, pre, [], post)), index, prior).err == Success <==>
            && index < |post| && AllFilled(post[..index + 1]) && post[index].Map?
            && (EndsHollow(post[index].entries) ==> index + 1 < |post|)
            && AllTyped(labels, Tags(Seen(post[index].entries)))
  {
    ArrayReached(labels, pre, [], post, index, prior);
    PickMeaning(post, false, index);
    if index < |post| && post[index].Map? {
      FoldMeaning(labels, Tags(Seen(post[index].entries)));
    }
    if index < |post| && !AllFilled(post[..index + 1]) {
      var j :| 0 <= j <= index && Kids(post[..index + 1][j]) == [];
      assert post[j] == post[..index + 1][j];
    } else if index >= |post| && !AllFilled(post) {
      var j :| 0 <= j < |post| && Kids(post[j]) == [];
    }
  }

  /** Concretely: a token with no components, whose next claim is a map, yields component 0. */
  lemma EmptyArrayMisread(labels: SwComponents.Labels, s: Slice, prior: Component)
    requires labels.Distinct()
    ensures var other := Map(IntLabel(7), [Leaf(IntLabel(labels.version), Text(s))]);
            GetAt(labels, Token(SwToken(labels, [], [], [other])), 0, prior) ==
            Decoded(Success, EMPTY.Set(Version, s))
  {
    var leaf := Leaf(IntLabel(labels.version), Text(s));
    var other := Map(IntLabel(7), [leaf]);
    ArrayReached(labels, [], [], [other], 0, prior);
    assert [leaf][1..] == [];
    assert Tags([leaf]) == [Tag(leaf)] + Tags([leaf][1..]) == [Tag(leaf)];
    assert Seen([leaf]) == [leaf] + Seen([leaf][1..]) == [leaf];
    LookupMeaning(labels, Tag(leaf));
    assert Tag(leaf).key == IntLabel(labels.Of(Version));
    assert [Tag(leaf)][1..] == [];
    assert Fold(labels, EMPTY, [Tag(leaf)]) == Folded(true, EMPTY.Set(Version, s));
  }

  /**
   No array in the token: the interface promises NOT_FOUND, the code gives it iff there is a
   claim, no claim is hollow, and the last one is a scalar.
   */
  lemma ArrayMissing(labels: SwComponents.Labels, entries: seq<Node>, index: nat, prior: Component)
    requires !Carries(entries, labels.swComponents)
    ensures GetAt(labels, Token(Map(NoLabel, entries)), index, prior) ==
            Decoded(if entries != [] && NoHollow(entries) && entries[|entries| - 1].Leaf?
                    then NotFound else NotWellFormed, prior)
  {
    GetRefines(labels, Map(NoLabel, entries), index, prior);
    LocateMeaning(entries, [], labels.swComponents);
  }
}
