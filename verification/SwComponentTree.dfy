/**
 The software-component fetch told on the claims tree.  `GetTree` looks only at the
 tree; `GetRefines` proves that the nest-level walk over the flat item stream computes
 it, for every tree and every index.  The theorems after it are about the tree.
 */
module SwComponentTree {
  import opened Cbor
  import opened CborCursor
  import opened CborRefinement
  import opened SwComponents

  datatype PickedNode = TheNode(node: Node, more: bool) | NoNode(err: Err)

  /**
   The member at `index`; `more` says whether the token goes on behind the members.  A member
   without content (a scalar or a hollow container) ends the search as if the array ended there.
   */
  function PickTree(ns: seq<Node>, more: bool, index: nat): PickedNode {
    if ns == [] then NoNode(if more then NotFound else NotWellFormed)
    else if Kids(ns[0]) == [] then NoNode(NotFound)
    else if index == 0 then TheNode(ns[0], |ns| > 1 || more)
    else PickTree(ns[1..], more, index - 1)
  }

  function DecodeTree(labels: Labels, picked: PickedNode, prior: Component): Decoded {
    match picked
    case NoNode(err) => Decoded(err, prior)
    case TheNode(Map(_, entries), more) =>
      Verdict(labels, Tags(Seen(entries)), !EndsHollow(entries) || more)
    case TheNode(_, _) => Decoded(CborStructure, prior)
  }

  function GetTree(labels: Labels, root: Node, index: nat, prior: Component): Decoded {
    if !root.Map? then Decoded(CborStructure, prior)
    else
      match Locate(root.entries, labels.swComponents)
      case AbsentSeen => Decoded(NotFound, prior)
      case AbsentBroken => Decoded(NotWellFormed, prior)
      case Here(from) =>
        if from == [] || !from[0].Array? then Decoded(CborType, prior)
        else HereTree(labels, from, index, prior)
  }

  /**
   The fetch from the array on.  An empty array has no exit level of its own: the claims behind it
   are taken for its members.
   */
  function HereTree(labels: Labels, from: seq<Node>, index: nat, prior: Component): Decoded
    requires from != [] && from[0].Array?
  {
    if from[0].elems != [] then DecodeTree(labels, PickTree(from[0].elems, |from| > 1, index), prior)
    else DecodeTree(labels, PickTree(from[1..], false, index), prior)
  }

  // ----- Refinement -----

  /** The stream ends at level 0, and behind position `end` comes an item of level `after`, if any. */
  ghost predicate EndsAt(items: seq<Item>, end: nat, level: nat, after: nat) {
    && end <= |items| && items != []
    && items[|items| - 1].next == 0
    && (after == 0 ==> end == |items|)
    && (after > 0 ==> end < |items| && items[end].next <= level)
  }

  /** A member with content is stepped over exactly. */
  lemma {:induction false} FetchGoesOn(
    labels: Labels, items: seq<Item>, pos: nat, ns: seq<Node>, level: nat, after: nat, index: nat, prior: Component)
    requires Laid(items, pos, ns, level, after) && after < level
    requires ns != [] && Kids(ns[0]) != [] && index > 0
    ensures var mid := pos + 1 + Size(Kids(ns[0]));
            && mid <= |items|
            && FetchAt(labels, items, pos, level, index, prior) == FetchAt(labels, items, mid, level, index - 1, prior)
  {
    ConsumeFirst(items, pos, ns, level, after);
  }

  lemma {:induction false} FetchLaid(
    labels: Labels, items: seq<Item>, pos: nat, ns: seq<Node>, level: nat, after: nat, index: nat, prior: Component)
    requires Laid(items, pos, ns, level, after) && after < level
    requires EndsAt(items, pos + Size(ns), level, after)
    ensures pos <= |items|
    ensures FetchAt(labels, items, pos, level, index, prior) ==
            DecodeTree(labels, PickTree(ns, after > 0, index), prior)
    decreases |ns|
  {
    if ns == [] || Kids(ns[0]) == [] || index == 0 {
      FetchStops(labels, items, pos, ns, level, after, index, prior);
    } else {
      FetchGoesOn(labels, items, pos, ns, level, after, index, prior);
      FetchLaid(labels, items, pos + 1 + Size(Kids(ns[0])), ns[1..], level, after, index - 1, prior);
    }
  }

  /** Behind the members, at a member without content, or at the member asked for. */
  lemma {:induction false} FetchStops(
    labels: Labels, items: seq<Item>, pos: nat, ns: seq<Node>, level: nat, after: nat, index: nat, prior: Component)
    requires Laid(items, pos, ns, level, after) && after < level
    requires EndsAt(items, pos + Size(ns), level, after)
    requires ns == [] || Kids(ns[0]) == [] || index == 0
    ensures pos <= |items|
    ensures FetchAt(labels, items, pos, level, index, prior) ==
            DecodeTree(labels, PickTree(ns, after > 0, index), prior)
  {
    if ns != [] && Kids(ns[0]) != [] && ns[0].Map? {
      DecodeLaid(labels, items, pos, ns, level, after, prior);
    }
  }

  lemma {:induction false} DecodeLaid(
    labels: Labels, items: seq<Item>, pos: nat, ns: seq<Node>, level: nat, after: nat, prior: Component)
    requires Laid(items, pos, ns, level, after) && after < level
    requires EndsAt(items, pos + Size(ns), level, after)
    requires ns != [] && ns[0].Map? && ns[0].entries != []
    ensures pos < |items|
    ensures DecodeAt(labels, items, pos + 1, items[pos], prior) ==
            DecodeTree(labels, TheNode(ns[0], |ns| > 1 || after > 0), prior)
  {
    var kids := ns[0].entries;
    var a := AfterFirst(ns, level, after);
    var end := pos + 1 + Size(kids);
    WalkLaid(items, pos + 1, kids, level + 1, a, end);
    SkipToEnd(items, end, a);
  }

  /** The flat walk computes the tree lookup: every tree, every index. */
  lemma GetRefines(labels: Labels, root: Node, index: nat, prior: Component)
    ensures GetAt(labels, Token(root), index, prior) == GetTree(labels, root, index, prior)
  {
    TokenLaid(root);
    RefinesOn(labels, Token(root), root, index, prior);
  }

  lemma {:induction false} RefinesOn(labels: Labels, items: seq<Item>, root: Node, index: nat, prior: Component)
    requires |items| == 1 + Size(Kids(root)) && items[0] == Head(root, 0, 0) && Laid(items, 1, Kids(root), 1, 0)
    ensures GetAt(labels, items, index, prior) == GetTree(labels, root, index, prior)
  {
    if root.Map? && root.entries != [] {
      var ns := root.entries;
      var at := SeekLaid(items, 1, ns, 1, labels.swComponents);
      var located := Locate(ns, labels.swComponents);
      LastNext(items, 1, ns, 1, 0);
      if located.Here? && located.from[0].Array? {
        FetchHere(labels, items, at, located.from, index, prior);
      }
    }
  }

  lemma {:induction false} FetchHere(
    labels: Labels, items: seq<Item>, at: nat, from: seq<Node>, index: nat, prior: Component)
    requires Laid(items, at, from, 1, 0) && at + Size(from) == |items|
    requires items != [] && items[|items| - 1].next == 0
    requires from != [] && from[0].Array?
    ensures at < |items|
    ensures FetchAt(labels, items, at + 1, items[at].next, index, prior) == HereTree(labels, from, index, prior)
  {
    var elems := from[0].elems;
    if elems != [] {
      assert |from| > 1 ==> items[at + 1 + Size(elems)].next <= 2;
      FetchLaid(labels, items, at + 1, elems, 2, AfterFirst(from, 1, 0), index, prior);
    } else if |from| > 1 {
      FetchLaid(labels, items, at + 1, from[1..], 1, 0, index, prior);
    }
  }
}
