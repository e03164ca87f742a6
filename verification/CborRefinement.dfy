/**
 What the nest-level walk computes on the stream of a claims tree.  A container with
 content is skipped exactly.  A hollow one (no content) makes the consume loop read on:
 it swallows the siblings that follow it, and with no sibling left it reads into the
 enclosing containers, or past the end of the token.
 */
module CborRefinement {
  import opened Cbor
  import opened CborCursor

  /** The siblings a scan gets to see: all of them, or those up to the first hollow one. */
  function Seen(ns: seq<Node>): seq<Node> {
    if ns == [] then []
    else if Hollow(ns[0]) then [ns[0]]
    else [ns[0]] + Seen(ns[1..])
  }

  /** The first hollow sibling is the last one. */
  predicate EndsHollow(ns: seq<Node>) {
    ns != [] && if |ns| == 1 then Hollow(ns[0]) else !Hollow(ns[0]) && EndsHollow(ns[1..])
  }

  /** Seen cuts the siblings just behind the first hollow one. */
  lemma {:induction false} SeenPrefix(ns: seq<Node>)
    ensures Seen(ns) <= ns
    ensures NoHollow(ns) ==> Seen(ns) == ns && !EndsHollow(ns)
    ensures !NoHollow(ns) ==>
              && Seen(ns) != [] && NoHollow(Seen(ns)[..|Seen(ns)| - 1]) && Hollow(Seen(ns)[|Seen(ns)| - 1])
              && (EndsHollow(ns) <==> Seen(ns) == ns)
  {
    if ns != [] && !Hollow(ns[0]) {
      SeenPrefix(ns[1..]);
      assert ns == [ns[0]] + ns[1..];
    }
  }

  // ----- Skipping -----

  /** A skip runs through siblings at or above its bound and stops where the level drops below it. */
  lemma {:induction false} SkipLaid(
    items: seq<Item>, pos: nat, ns: seq<Node>, level: nat, after: nat, bound: nat, end: nat)
    requires Laid(items, pos, ns, level, after) && ns != [] && bound <= level && end == pos + Size(ns)
    ensures end <= |items|
    ensures Skip(items, pos, bound) == if after < bound then Step(true, end, after) else Skip(items, end, bound)
    decreases ns
  {
    var kids := Kids(ns[0]);
    var mid := pos + 1 + Size(kids);
    if kids != [] {
      SkipLaid(items, pos + 1, kids, level + 1, AfterFirst(ns, level, after), bound, mid);
    }
    if |ns| > 1 {
      SkipLaid(items, mid, ns[1..], level, after, bound, end);
    }
  }

  lemma {:induction false} LaidFits(items: seq<Item>, pos: nat, ns: seq<Node>, level: nat, after: nat)
    requires Laid(items, pos, ns, level, after) && pos <= |items|
    ensures pos + Size(ns) <= |items|
  {
    if ns != [] {
      SkipLaid(items, pos, ns, level, after, 0, pos + Size(ns));
    }
  }

  /** Nothing is below level 0, so a skip to below it runs off the stream. */
  lemma {:induction false} SkipBelowZero(items: seq<Item>, pos: nat)
    requires pos <= |items|
    ensures Skip(items, pos, 0) == Step(false, |items|, 0)
    decreases |items| - pos
  {
    if pos < |items| {
      SkipBelowZero(items, pos + 1);
    }
  }

  // ----- One sibling -----

  /** Consuming a sibling: exact, unless it is hollow. */
  lemma {:induction false} ConsumeFirst(items: seq<Item>, pos: nat, ns: seq<Node>, level: nat, after: nat)
    requires Laid(items, pos, ns, level, after) && ns != [] && after < level
    ensures pos < |items| && pos + Size(ns) <= |items|
    ensures Consume(items, pos + 1, items[pos]) ==
            if !Hollow(ns[0]) then Step(true, pos + 1 + Size(Kids(ns[0])), AfterFirst(ns, level, after))
            else if |ns| > 1 then Step(true, pos + Size(ns), after)
            else Skip(items, pos + Size(ns), after)
  {
    LaidFits(items, pos, ns, level, after);
    var kids := Kids(ns[0]);
    if kids != [] {
      SkipLaid(items, pos + 1, kids, level + 1, AfterFirst(ns, level, after), level + 1, pos + 1 + Size(kids));
    } else if Hollow(ns[0]) && |ns| > 1 {
      var rest := ns[1..];
      assert Size(ns) == 1 + Size(rest);
      SkipLaid(items, pos + 1, rest, level, after, level, pos + Size(ns));
    }
  }

  // ----- A run of siblings -----

  /** Where and how a scan of siblings ends: at their end, unless the last one is hollow. */
  function WalkEnd(items: seq<Item>, end: nat, ns: seq<Node>, after: nat): Step
    requires end <= |items|
  {
    if EndsHollow(ns) then Skip(items, end, after) else Step(true, end, after)
  }

  /** A scan of siblings looks at their own claims and at nothing nested inside them. */
  lemma {:induction false} WalkLaid(items: seq<Item>, pos: nat, ns: seq<Node>, level: nat, after: nat, end: nat)
    requires Laid(items, pos, ns, level, after) && ns != [] && after < level && end == pos + Size(ns)
    ensures end <= |items|
    ensures var e := WalkEnd(items, end, ns, after);
            Walk(items, pos, level) == Visit(Tags(Seen(ns)), e.pos, e.ok)
    decreases |ns|
  {
    if Hollow(ns[0]) || |ns| == 1 {
      WalkStops(items, pos, ns, level, after, end);
      SeenOne(ns);
    } else {
      WalkGoesOn(items, pos, ns, level, after);
      WalkLaid(items, pos + 1 + Size(Kids(ns[0])), ns[1..], level, after, end);
      SeenTail(ns);
    }
  }

  lemma {:induction false} WalkStops(items: seq<Item>, pos: nat, ns: seq<Node>, level: nat, after: nat, end: nat)
    requires Laid(items, pos, ns, level, after) && ns != [] && after < level && end == pos + Size(ns)
    requires Hollow(ns[0]) || |ns| == 1
    ensures end <= |items|
    ensures var e := WalkEnd(items, end, ns, after);
            Walk(items, pos, level) == Visit([Tag(ns[0])], e.pos, e.ok)
  {
    ConsumeFirst(items, pos, ns, level, after);
    SkipNext(items, end, after);
  }

  lemma {:induction false} WalkGoesOn(items: seq<Item>, pos: nat, ns: seq<Node>, level: nat, after: nat)
    requires Laid(items, pos, ns, level, after) && |ns| > 1 && after < level
    requires !Hollow(ns[0])
    ensures var mid := pos + 1 + Size(Kids(ns[0]));
            && mid <= |items|
            && var v := Walk(items, mid, level);
               Walk(items, pos, level) == Visit([Tag(ns[0])] + v.direct, v.pos, v.ok)
  {
    ConsumeFirst(items, pos, ns, level, after);
  }

  lemma SeenOne(ns: seq<Node>)
    requires ns != [] && (Hollow(ns[0]) || |ns| == 1)
    ensures Tags(Seen(ns)) == [Tag(ns[0])]
  {
  }

  lemma SeenTail(ns: seq<Node>)
    requires ns != [] && !Hollow(ns[0])
    ensures Tags(Seen(ns)) == [Tag(ns[0])] + Tags(Seen(ns[1..]))
  {
  }

  lemma SkipNext(items: seq<Item>, pos: nat, bound: nat)
    requires pos <= |items|
    ensures Skip(items, pos, bound).ok ==> Skip(items, pos, bound).next < bound
    decreases |items| - pos
  {
  }

  /** The outcome of searching the whole token, told from its tree. */
  lemma {:induction false} SearchToken(root: Node)
    ensures var s := SearchMap(Token(root), 0);
            if !root.Map? then s.err == CborStructure && s.visit.direct == []
            else
              && s.visit.direct == Tags(Seen(root.entries))
              && s.err == (if EndsHollow(root.entries) then NotWellFormed else Success)
              && (s.err == Success ==> s.visit.pos == |Token(root)|)
  {
    TokenLaid(root);
    var items := Token(root);
    if root.Map? && root.entries != [] {
      WalkLaid(items, 1, root.entries, 1, 0, |items|);
      SkipBelowZero(items, |items|);
    }
  }

  // ----- Decoding up to a label -----

  /** The sibling with the label and those behind it, or how the search fails. */
  datatype Located = Here(from: seq<Node>) | AbsentSeen | AbsentBroken

  /**
   Where the label is found among the siblings.  A hollow sibling on the way swallows the
   rest.  When the label is missing, the walk notices the end of the map only if the last
   sibling is a leaf: it compares that sibling's own next level, not the one it consumed to.
   */
  function Locate(ns: seq<Node>, wanted: Int64): Located {
    if ns == [] then AbsentBroken
    else if ns[0].key == IntLabel(wanted) then Here(ns)
    else if Hollow(ns[0]) then AbsentBroken
    else if |ns| == 1 then (if ns[0].Leaf? then AbsentSeen else AbsentBroken)
    else Locate(ns[1..], wanted)
  }

  predicate Carries(ns: seq<Node>, wanted: Int64) {
    exists i :: 0 <= i < |ns| && ns[i].key == IntLabel(wanted)
  }

  /** Locate, said without walking: the first bearer of the label, with nothing hollow before it. */
  lemma {:induction false} LocateMeaning(pre: seq<Node>, from: seq<Node>, wanted: Int64)
    requires !Carries(pre, wanted)
    ensures NoHollow(pre) && from != [] && from[0].key == IntLabel(wanted) ==> Locate(pre + from, wanted) == Here(from)
    ensures !NoHollow(pre) ==> Locate(pre + from, wanted) == AbsentBroken
    ensures pre == [] ==> Locate(pre, wanted) == AbsentBroken
    ensures pre != [] ==> (Locate(pre, wanted) == AbsentSeen <==> NoHollow(pre) && pre[|pre| - 1].Leaf?)
    ensures !Locate(pre, wanted).Here?
  {
    if pre == [] {
      assert pre + from == from;
    } else {
      assert (pre + from)[1..] == pre[1..] + from;
      assert pre == [pre[0]] + pre[1..];
      LocateMeaning(pre[1..], from, wanted);
    }
  }

  /** A search on the stream agrees with one among siblings; `at` is the position of what was found. */
  ghost predicate Agrees(items: seq<Item>, r: Sought, located: Located, at: nat, level: nat) {
    match located
    case Here(from) =>
      && from != []
      && Laid(items, at, from, level, 0) && at + Size(from) == |items|
      && r == Sought(Success, at + 1, Head(from[0], level, AfterFirst(from, level, 0)))
    case AbsentSeen => r.err == NotFound
    case AbsentBroken => r.err == NotWellFormed
  }

  /** The labelled search at the first sibling, where it ends there. */
  lemma {:induction false} SeekEnds(items: seq<Item>, pos: nat, ns: seq<Node>, level: nat, wanted: Int64)
    requires Laid(items, pos, ns, level, 0) && level > 0 && pos + Size(ns) == |items|
    requires ns == [] || ns[0].key == IntLabel(wanted) || Hollow(ns[0]) || |ns| == 1
    ensures Agrees(items, Seek(items, pos, wanted, level), Locate(ns, wanted), pos, level)
  {
    if ns != [] && ns[0].key != IntLabel(wanted) {
      ConsumeFirst(items, pos, ns, level, 0);
      SkipBelowZero(items, |items|);
    }
  }

  /** The labelled search at the first sibling, where it goes on with the next one. */
  lemma {:induction false} SeekGoesOn(items: seq<Item>, pos: nat, ns: seq<Node>, level: nat, wanted: Int64, mid: nat)
    requires Laid(items, pos, ns, level, 0) && level > 0 && |ns| > 1
    requires ns[0].key != IntLabel(wanted) && !Hollow(ns[0]) && mid == pos + 1 + Size(Kids(ns[0]))
    ensures mid <= |items| && Seek(items, pos, wanted, level) == Seek(items, mid, wanted, level)
    ensures Locate(ns, wanted) == Locate(ns[1..], wanted)
    ensures Laid(items, mid, ns[1..], level, 0) && pos + Size(ns) == mid + Size(ns[1..])
  {
    ConsumeFirst(items, pos, ns, level, 0);
  }

  /** The labelled search on the children of the root, where the token ends behind them. */
  lemma {:induction false} SeekLaid(
    items: seq<Item>, pos: nat, ns: seq<Node>, level: nat, wanted: Int64) returns (at: nat)
    requires Laid(items, pos, ns, level, 0) && level > 0 && pos + Size(ns) == |items|
    ensures Agrees(items, Seek(items, pos, wanted, level), Locate(ns, wanted), at, level)
    decreases |ns|
  {
    if ns == [] || ns[0].key == IntLabel(wanted) || Hollow(ns[0]) || |ns| == 1 {
      at := pos;
      SeekEnds(items, pos, ns, level, wanted);
    } else {
      var mid := pos + 1 + Size(Kids(ns[0]));
      SeekGoesOn(items, pos, ns, level, wanted, mid);
      at := SeekLaid(items, mid, ns[1..], level, wanted);
    }
  }

  // ----- The end of a stream -----

  lemma {:induction false} LastNext(items: seq<Item>, pos: nat, ns: seq<Node>, level: nat, after: nat)
    requires Laid(items, pos, ns, level, after) && ns != []
    ensures pos + Size(ns) <= |items| && items[pos + Size(ns) - 1].next == after
    decreases ns
  {
    if |ns| > 1 {
      LastNext(items, pos + 1 + Size(Kids(ns[0])), ns[1..], level, after);
    } else if Kids(ns[0]) != [] {
      LastNext(items, pos + 1, Kids(ns[0]), level + 1, after);
    }
  }

  /** In a stream that ends at level 0, a skip finds its end iff its bound is positive. */
  lemma {:induction false} SkipToEnd(items: seq<Item>, pos: nat, bound: nat)
    requires pos <= |items| && (pos < |items| ==> items[|items| - 1].next == 0)
    requires bound > 0 ==> pos < |items|
    ensures Skip(items, pos, bound).ok <==> bound > 0
    decreases |items| - pos
  {
    if bound == 0 {
      SkipBelowZero(items, pos);
    } else if items[pos].next >= bound {
      SkipToEnd(items, pos + 1, bound);
    }
  }
}
