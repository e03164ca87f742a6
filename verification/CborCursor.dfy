/**
 The decode cursor and the helpers of qcbor_util.c that move it: consuming an item,
 searching a map, and decoding up to a label.  Each loop is a method on the Decoder,
 proved against a function of the item stream (any stream, also one that breaks off);
 the lemmas then say what those functions compute on the stream of a claims tree.
 */
module CborCursor {
  import opened Cbor

  datatype Err =
    | Success
    | NotFound
    | CborType
    | CborStructure
    | NotWellFormed
    | IntegerValue
    | SwComponentsMissing
    | NoValidToken
    | CoseValidation
    | OtherErr(code: int)

  const NO_ITEM := Item(Claim(NoLabel, NoData), 0, 0)

  // ----- Stream functions -----

  /** Outcome of consuming an item: where the cursor is and the next nesting level. */
  datatype Step = Step(ok: bool, pos: nat, next: nat)

  /** Read items until one is followed by a level below `level`. */
  function Skip(items: seq<Item>, pos: nat, level: nat): (r: Step)
    requires pos <= |items|
    ensures pos <= r.pos <= |items| && (r.ok ==> pos < r.pos)
    decreases |items| - pos
  {
    if pos == |items| then Step(false, pos, 0)
    else if items[pos].next < level then Step(true, pos + 1, items[pos].next)
    else Skip(items, pos + 1, level)
  }

  function Consume(items: seq<Item>, pos: nat, item: Item): (r: Step)
    requires pos <= |items|
    ensures pos <= r.pos <= |items|
  {
    if IsContainer(item.claim.data) then Skip(items, pos, item.next) else Step(true, pos, item.next)
  }

  /** The claims a map scan looks at, where it stops, and whether it ran into the end. */
  datatype Visit = Visit(direct: seq<Claim>, pos: nat, ok: bool)

  function Walk(items: seq<Item>, pos: nat, level: nat): (r: Visit)
    requires pos <= |items|
    ensures pos <= r.pos <= |items|
    decreases |items| - pos
  {
    if pos == |items| then Visit([], pos, false)
    else
      var s := Consume(items, pos + 1, items[pos]);
      if !s.ok || s.next < level then Visit([items[pos].claim], s.pos, s.ok)
      else
        var v := Walk(items, s.pos, level);
        Visit([items[pos].claim] + v.direct, v.pos, v.ok)
  }

  /** The content recorded for a label: that of the last visited claim carrying it. */
  function LastMatch(direct: seq<Claim>, wanted: Int64): (d: Data)
    ensures d != NoData ==> exists i :: 0 <= i < |direct| && direct[i] == Claim(IntLabel(wanted), d)
  {
    if direct == [] then NoData
    else
      var n := |direct| - 1;
      if direct[n].key == IntLabel(wanted) then direct[n].data
      else LastMatch(direct[..n], wanted)
  }

  /** A scan that began at `start` has looked at `seen` and stands at `pos`, ahead of level `next`. */
  ghost predicate Scanned(items: seq<Item>, start: nat, level: nat, seen: seq<Claim>, pos: nat, next: nat)
    requires start <= |items| && pos <= |items|
  {
    var w := Walk(items, start, level);
    if next >= level then
      var v := Walk(items, pos, level);
      w == Visit(seen + v.direct, v.pos, v.ok)
    else w == Visit(seen, pos, true)
  }

  lemma ScanStep(items: seq<Item>, start: nat, level: nat, seen: seq<Claim>, pos: nat, next: nat)
    requires start <= |items| && pos < |items| && next >= level
    requires Scanned(items, start, level, seen, pos, next)
    ensures var s := Consume(items, pos + 1, items[pos]);
            if s.ok then Scanned(items, start, level, seen + [items[pos].claim], s.pos, s.next)
            else Walk(items, start, level) == Visit(seen + [items[pos].claim], s.pos, false)
  {
    var s := Consume(items, pos + 1, items[pos]);
    if s.ok && s.next >= level {
      var v := Walk(items, s.pos, level);
      assert seen + ([items[pos].claim] + v.direct) == seen + [items[pos].claim] + v.direct;
    }
  }

  /** Every wanted label has the content of the last claim carrying it, or none. */
  ghost predicate Recorded(found: seq<Data>, labels: seq<Int64>, direct: seq<Claim>) {
    && |found| == |labels|
    && forall j :: 0 <= j < |labels| ==> found[j] == LastMatch(direct, labels[j])
  }

  datatype Search = Search(err: Err, visit: Visit)

  /** What a search of the map that starts at `pos` visits. */
  function SearchMap(items: seq<Item>, pos: nat): (r: Search)
    requires pos <= |items|
    ensures r.visit.pos <= |items|
  {
    if pos == |items| then Search(CborStructure, Visit([], pos, false))
    else if !items[pos].claim.data.MapHead? then Search(CborStructure, Visit([], pos + 1, false))
    else if items[pos].next <= items[pos].level then Search(Success, Visit([], pos + 1, true))
    else
      var v := Walk(items, pos + 1, items[pos].level + 1);
      Search(if v.ok then Success else NotWellFormed, v)
  }

  /** The search of the map at `at` has looked at `seen` and stands at `pos`, ahead of level `next`. */
  ghost predicate Searching(items: seq<Item>, at: nat, seen: seq<Claim>, pos: nat, next: nat)
    requires at < |items| && pos <= |items|
  {
    var m := items[at];
    if m.next > m.level then Scanned(items, at + 1, m.level + 1, seen, pos, next)
    else seen == [] && pos == at + 1 && next == m.next
  }

  lemma SearchStart(items: seq<Item>, at: nat)
    requires at < |items|
    ensures Searching(items, at, [], at + 1, items[at].next)
  {
    var w := Walk(items, at + 1, items[at].level + 1);
    assert [] + w.direct == w.direct;
  }

  lemma SearchStep(items: seq<Item>, at: nat, seen: seq<Claim>, pos: nat, next: nat)
    requires at < |items| && pos <= |items| && items[at].claim.data.MapHead?
    requires Searching(items, at, seen, pos, next) && next > items[at].level
    ensures if pos == |items| then SearchMap(items, at) == Search(NotWellFormed, Visit(seen, pos, false))
            else
              var s, seen' := Consume(items, pos + 1, items[pos]), seen + [items[pos].claim];
              if s.ok then Searching(items, at, seen', s.pos, s.next)
              else SearchMap(items, at) == Search(NotWellFormed, Visit(seen', s.pos, false))
  {
    var level := items[at].level + 1;
    if pos == |items| {
      assert Walk(items, pos, level).direct == [] && seen + [] == seen;
    } else {
      ScanStep(items, at + 1, level, seen, pos, next);
    }
  }

  lemma SearchEnd(items: seq<Item>, at: nat, seen: seq<Claim>, pos: nat, next: nat)
    requires at < |items| && pos <= |items| && items[at].claim.data.MapHead?
    requires Searching(items, at, seen, pos, next) && next <= items[at].level
    ensures SearchMap(items, at) == Search(Success, Visit(seen, pos, true))
  {
  }

  datatype Sought = Sought(err: Err, pos: nat, item: Item)

  /** Decode until a claim with the label; the cursor is left just behind that item's head. */
  function Seek(items: seq<Item>, pos: nat, wanted: Int64, mapNext: nat): (r: Sought)
    requires pos <= |items|
    ensures r.pos <= |items|
    decreases |items| - pos
  {
    if pos == |items| then Sought(NotWellFormed, pos, NO_ITEM)
    else
      var item := items[pos];
      if item.claim.key == IntLabel(wanted) then Sought(Success, pos + 1, item)
      else
        var s := Consume(items, pos + 1, item);
        if !s.ok then Sought(NotWellFormed, s.pos, item)
        else if item.next < mapNext then Sought(NotFound, s.pos, item)
        else Seek(items, s.pos, wanted, mapNext)
  }

  function SeekInMap(items: seq<Item>, wanted: Int64): (r: Sought)
    ensures r.pos <= |items|
  {
    if items == [] then Sought(CborStructure, 0, NO_ITEM)
    else if !items[0].claim.data.MapHead? then Sought(CborStructure, 1, NO_ITEM)
    else Seek(items, 1, wanted, items[0].next)
  }

  // ----- The decoder object -----

  datatype FinishResult = FinishOk | StillOpen | ExtraBytes

  /** A container left open is reported before unread items are. */
  function FinishAt(items: seq<Item>, pos: nat): FinishResult
    requires pos <= |items|
  {
    if pos > 0 && items[pos - 1].next != 0 then StillOpen
    else if pos < |items| then ExtraBytes
    else FinishOk
  }

  /** A null payload is kept apart from an empty one: only some getters look at the pointer. */
  datatype Payload = NullPayload | Payload(items: seq<Item>)

  function ItemsOf(p: Payload): seq<Item> {
    if p.NullPayload? then [] else p.items
  }

  datatype Context = Context(payload: Payload, lastError: Err)

  class Decoder {
    const items: seq<Item>
    var pos: nat

    ghost predicate Valid()
      reads this
    {
      pos <= |items|
    }

    constructor (stream: seq<Item>)
      ensures Valid() && items == stream && pos == 0
    {
      items := stream;
      pos := 0;
    }

    /** QCBORDecode_GetNext; past the end it reports an error and an item of no type. */
    method GetNext() returns (ok: bool, item: Item)
      requires Valid()
      modifies this
      ensures Valid()
      ensures ok == (old(pos) < |items|)
      ensures ok ==> item == items[old(pos)] && pos == old(pos) + 1
      ensures !ok ==> item == NO_ITEM && pos == old(pos)
    {
      if pos < |items| {
        ok, item := true, items[pos];
        pos := pos + 1;
      } else {
        ok, item := false, NO_ITEM;
      }
    }

    /** QCBORDecode_Finish */
    function Finish(): FinishResult
      requires Valid()
      reads this
    {
      FinishAt(items, pos)
    }

    method ConsumeItem(item: Item) returns (ok: bool, next: nat)
      requires Valid()
      modifies this
      ensures Valid()
      ensures var s := Consume(items, old(pos), item); ok == s.ok && pos == s.pos && (ok ==> next == s.next)
    {
      if IsContainer(item.claim.data) {
        var it: Item;
        ok, it := GetNext();
        while ok && it.next >= item.next
          invariant Valid()
          invariant ok ==> 0 < pos && it == items[pos - 1]
          invariant ok ==> Skip(items, pos - 1, item.next) == Skip(items, old(pos), item.next)
          invariant !ok ==> Skip(items, old(pos), item.next) == Step(false, pos, 0)
          decreases |items| - pos, ok
        {
          ok, it := GetNext();
        }
        return ok, it.next;
      } else {
        return true, item.next;
      }
    }

    /** One round of the loop below: the next claim is recorded and what is nested in it consumed. */
    method ScanItem(labels: seq<Int64>, found: seq<Data>, ghost at: nat, ghost seen: seq<Claim>, ghost before: nat)
      returns (ok: bool, next: nat, found': seq<Data>, ghost seen': seq<Claim>)
      requires Valid() && at < |items| && items[at].claim.data.MapHead? && before > items[at].level
      requires Searching(items, at, seen, pos, before) && Recorded(found, labels, seen)
      modifies this
      ensures Valid() && Recorded(found', labels, seen')
      ensures ok ==> pos > old(pos) && Searching(items, at, seen', pos, next)
      ensures !ok ==> SearchMap(items, at) == Search(NotWellFormed, Visit(seen', pos, false))
    {
      SearchStep(items, at, seen, pos, before);
      var item;
      ok, item := GetNext();
      if !ok {
        return false, 0, found, seen;
      }
      found' := Record(found, labels, item.claim, seen);
      seen' := seen + [item.claim];
      ok, next := ConsumeItem(item);
    }

    /** qcbor_util_get_items_in_map: one pass that records the last claim of each wanted label. */
    method GetItemsInMap(labels: seq<Int64>) returns (err: Err, found: seq<Data>)
      requires Valid()
      requires 0 !in labels
      modifies this
      ensures Valid()
      ensures var s := SearchMap(items, old(pos));
              && err == s.err && pos == s.visit.pos
              && Recorded(found, labels, s.visit.direct)
    {
      found := seq(|labels|, _ => NoData);
      var ok, item := GetNext();
      if !item.claim.data.MapHead? {
        return CborStructure, found;
      }
      var mapLevel, next := item.level, item.next;
      ghost var at, seen := old(pos), [];
      SearchStart(items, at);
      while next > mapLevel
        invariant Valid() && Searching(items, at, seen, pos, next)
        invariant Recorded(found, labels, seen)
        decreases |items| - pos, next
      {
        ok, next, found, seen := ScanItem(labels, found, at, seen, next);
        if !ok {
          return NotWellFormed, found;
        }
      }
      SearchEnd(items, at, seen, pos, next);
      return Success, found;
    }

    /** qcbor_util_decode_to_labeled_item */
    method DecodeToLabeledItem(wanted: Int64) returns (err: Err, item: Item)
      requires Valid() && pos == 0
      modifies this
      ensures Valid()
      ensures var s := SeekInMap(items, wanted);
              err == s.err && pos == s.pos && (err == Success ==> item == s.item)
    {
      item := NO_ITEM;
      var ok, mapItem := GetNext();
      if !mapItem.claim.data.MapHead? {
        return CborStructure, item;
      }
      while true
        invariant Valid() && 0 < pos
        invariant Seek(items, pos, wanted, mapItem.next) == SeekInMap(items, wanted)
        decreases |items| - pos
      {
        ok, item := GetNext();
        if !ok {
          return NotWellFormed, item;
        }
        if item.claim.key == IntLabel(wanted) {
          return Success, item;
        }
        var next;
        ok, next := ConsumeItem(item);
        if !ok {
          return NotWellFormed, item;
        }
        if item.next < mapItem.next {
          return NotFound, item;
        }
      }
    }
  }

  /** Store a claim in the slot of every wanted label it carries. */
  method Record(found: seq<Data>, labels: seq<Int64>, claim: Claim, ghost seen: seq<Claim>) returns (r: seq<Data>)
    requires Recorded(found, labels, seen)
    ensures Recorded(r, labels, seen + [claim])
  {
    assert (seen + [claim])[..|seen|] == seen;
    r := found;
    for i := 0 to |labels|
      invariant |r| == |labels|
      invariant forall j :: 0 <= j < i ==> r[j] == LastMatch(seen + [claim], labels[j])
      invariant forall j :: i <= j < |labels| ==> r[j] == found[j]
    {
      if claim.key == IntLabel(labels[i]) {
        r := r[i := claim.data];
      }
    }
  }
}
