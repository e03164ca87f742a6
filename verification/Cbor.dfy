/**
 The CBOR data model the attestation decoder works on: a claims tree, and the flat
 pre-order stream of items that QCBORDecode_GetNext hands out for it.  An item carries
 its own nesting level and the nesting level of the item that comes after it; nothing
 else in the stream says where a container ends.
 */
module Cbor {

  type Int64 = x: int | -0x8000_0000_0000_0000 <= x < 0x8000_0000_0000_0000
  type UInt64 = x: int | 0 <= x < 0x1_0000_0000_0000_0000

  /** A pointer and a length into the token, as q_useful_buf_c; strings are never copied. */
  datatype Slice = Slice(ptr: nat, len: nat)

  const NULL_SLICE := Slice(0, 0)

  /** Only 64-bit integer labels are ever looked at. */
  datatype Label = NoLabel | IntLabel(n: Int64) | OtherLabel

  datatype Scalar =
    | Text(slice: Slice)
    | Bytes(slice: Slice)
    | Int(i: Int64)
    | UInt(u: UInt64)
    | OtherScalar

  /** What an item says of its content: a scalar, or a container head with its count. */
  datatype Data = NoData | Value(scalar: Scalar) | ArrayHead(count: nat) | MapHead(count: nat)

  datatype Claim = Claim(key: Label, data: Data)

  datatype Item = Item(claim: Claim, level: nat, next: nat)

  datatype Node =
    | Leaf(key: Label, scalar: Scalar)
    | Array(key: Label, elems: seq<Node>)
    | Map(key: Label, entries: seq<Node>)

  function Kids(n: Node): seq<Node> {
    match n
    case Leaf(_, _) => []
    case Array(_, elems) => elems
    case Map(_, entries) => entries
  }

  /** The part of a node that is visible without looking inside it. */
  function Tag(n: Node): Claim {
    match n
    case Leaf(l, s) => Claim(l, Value(s))
    case Array(l, elems) => Claim(l, ArrayHead(|elems|))
    case Map(l, entries) => Claim(l, MapHead(|entries|))
  }

  function Tags(ns: seq<Node>): seq<Claim> {
    if ns == [] then [] else [Tag(ns[0])] + Tags(ns[1..])
  }

  predicate IsContainer(d: Data) {
    d.ArrayHead? || d.MapHead?
  }

  /** An array or map without content: the one shape the nest-level walk stumbles over. */
  predicate Hollow(n: Node) {
    !n.Leaf? && Kids(n) == []
  }

  predicate NoHollow(ns: seq<Node>) {
    forall i :: 0 <= i < |ns| ==> !Hollow(ns[i])
  }

  /** The nesting level after siblings `ns` that sit at `level`, seen from the first of them. */
  function AfterFirst(ns: seq<Node>, level: nat, after: nat): nat
    requires ns != []
  {
    if |ns| == 1 then after else level
  }

  /** The head item of `n` when the item after the whole of `n` is at level `after`. */
  function Head(n: Node, level: nat, after: nat): Item {
    Item(Tag(n), level, if Kids(n) == [] then after else level + 1)
  }

  /** Pre-order items of the siblings `ns`; `after` is the level of the item that follows them. */
  function Flatten(ns: seq<Node>, level: nat, after: nat): seq<Item>
    decreases ns
  {
    if ns == [] then []
    else
      var a := AfterFirst(ns, level, after);
      var inner := if ns[0].Leaf? then [] else Flatten(Kids(ns[0]), level + 1, a);
      [Head(ns[0], level, a)] + inner + Flatten(ns[1..], level, after)
  }

  /** The stream of a complete token: one top-level item, after which the level is 0. */
  function Token(root: Node): seq<Item> {
    Flatten([root], 0, 0)
  }

  // ----- Where the items of a tree are in a stream -----

  /** Number of items of the siblings `ns`. */
  function Size(ns: seq<Node>): nat
    decreases ns
  {
    if ns == [] then 0
    else 1 + (if ns[0].Leaf? then 0 else Size(Kids(ns[0]))) + Size(ns[1..])
  }

  /** The stream holds, from `pos`, the items of the siblings `ns` in pre-order. */
  ghost predicate Laid(items: seq<Item>, pos: nat, ns: seq<Node>, level: nat, after: nat)
    decreases ns
  {
    ns == [] ||
    (var a := AfterFirst(ns, level, after);
     && pos < |items|
     && items[pos] == Head(ns[0], level, a)
     && (ns[0].Leaf? || Laid(items, pos + 1, Kids(ns[0]), level + 1, a))
     && Laid(items, pos + 1 + Size(Kids(ns[0])), ns[1..], level, after))
  }

  lemma {:induction false} FlattenSize(ns: seq<Node>, level: nat, after: nat)
    ensures |Flatten(ns, level, after)| == Size(ns)
    decreases ns
  {
    if ns != [] {
      if !ns[0].Leaf? {
        FlattenSize(Kids(ns[0]), level + 1, AfterFirst(ns, level, after));
      }
      FlattenSize(ns[1..], level, after);
    }
  }

  /** `part` is in the stream from `pos`. */
  ghost predicate Within(items: seq<Item>, pos: nat, part: seq<Item>) {
    pos + |part| <= |items| && items[pos..pos + |part|] == part
  }

  lemma WithinSplit(items: seq<Item>, pos: nat, a: seq<Item>, b: seq<Item>)
    requires Within(items, pos, a + b)
    ensures Within(items, pos, a) && Within(items, pos + |a|, b)
  {
    var found := items[pos..pos + |a + b|];
    assert items[pos..pos + |a|] == found[..|a|] == a;
    assert items[pos + |a|..pos + |a| + |b|] == found[|a|..] == b;
  }

  /** A node and its siblings: the first head, then what it contains, then the other siblings. */
  lemma FlattenFirst(ns: seq<Node>, level: nat, after: nat, a: nat)
    requires ns != [] && a == AfterFirst(ns, level, after)
    ensures Flatten(ns, level, after) ==
            [Head(ns[0], level, a)] + Flatten(Kids(ns[0]), level + 1, a) + Flatten(ns[1..], level, after)
  {
  }

  /** The parts of the siblings in a stream. */
  lemma WithinFirst(items: seq<Item>, pos: nat, ns: seq<Node>, level: nat, after: nat, a: nat, mid: nat)
    requires ns != [] && a == AfterFirst(ns, level, after) && mid == pos + 1 + Size(Kids(ns[0]))
    requires Within(items, pos, Flatten(ns, level, after))
    ensures pos < |items| && items[pos] == Head(ns[0], level, a)
    ensures Within(items, pos + 1, Flatten(Kids(ns[0]), level + 1, a))
    ensures Within(items, mid, Flatten(ns[1..], level, after))
  {
    FlattenFirst(ns, level, after, a);
    FlattenSize(Kids(ns[0]), level + 1, a);
    WithinParts(items, pos, Head(ns[0], level, a), Flatten(Kids(ns[0]), level + 1, a), Flatten(ns[1..], level, after));
  }

  lemma WithinParts(items: seq<Item>, pos: nat, h: Item, inner: seq<Item>, rest: seq<Item>)
    requires Within(items, pos, [h] + inner + rest)
    ensures pos < |items| && items[pos] == h
    ensures Within(items, pos + 1, inner) && Within(items, pos + 1 + |inner|, rest)
  {
    WithinSplit(items, pos, [h] + inner, rest);
    WithinSplit(items, pos, [h], inner);
    assert items[pos..pos + 1][0] == h;
  }

  lemma LaidFirst(items: seq<Item>, pos: nat, ns: seq<Node>, level: nat, after: nat, a: nat, mid: nat)
    requires ns != [] && a == AfterFirst(ns, level, after) && mid == pos + 1 + Size(Kids(ns[0]))
    requires pos < |items| && items[pos] == Head(ns[0], level, a)
    requires Laid(items, pos + 1, Kids(ns[0]), level + 1, a)
    requires Laid(items, mid, ns[1..], level, after)
    ensures Laid(items, pos, ns, level, after)
  {
  }

  /** Wherever a stream holds the flattened siblings, they are laid out there. */
  lemma {:induction false} FlattenLaid(items: seq<Item>, pos: nat, ns: seq<Node>, level: nat, after: nat)
    requires Within(items, pos, Flatten(ns, level, after))
    ensures Laid(items, pos, ns, level, after)
    decreases ns, 1
  {
    if ns != [] {
      var a, mid := AfterFirst(ns, level, after), pos + 1 + Size(Kids(ns[0]));
      WithinFirst(items, pos, ns, level, after, a, mid);
      KidsLaid(items, pos + 1, ns[0], level + 1, a);
      FlattenLaid(items, mid, ns[1..], level, after);
      LaidFirst(items, pos, ns, level, after, a, mid);
    }
  }

  lemma {:induction false} KidsLaid(items: seq<Item>, pos: nat, n: Node, level: nat, after: nat)
    requires Within(items, pos, Flatten(Kids(n), level, after))
    ensures Laid(items, pos, Kids(n), level, after)
    decreases n, 0
  {
    if !n.Leaf? {
      FlattenLaid(items, pos, Kids(n), level, after);
    }
  }

  /** The stream of a token: the root head, then the root's children at level 1, then nothing. */
  lemma TokenLaid(root: Node)
    ensures var items := Token(root);
            && |items| == 1 + Size(Kids(root))
            && items[0] == Head(root, 0, 0)
            && Laid(items, 1, Kids(root), 1, 0)
  {
    var ns, items := [root], Token(root);
    FlattenSize(ns, 0, 0);
    assert items[0..0 + |items|] == items;
    WithinFirst(items, 0, ns, 0, 0, 0, 1 + Size(Kids(root)));
    KidsLaid(items, 1, root, 1, 0);
    assert Size(ns[1..]) == 0;
  }
}
