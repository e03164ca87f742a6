/**
 Fetching one software component of an attestation token: attest_token_get_sw_component
 and decode_sw_component.  The two loops are methods over the decode cursor; the theorems
 say what they return for every claims tree and every index, first as a function of the
 tree, then for the tokens the interface is meant for.
 */
module SwComponents {
  import opened Cbor
  import opened CborCursor

  /** The claims of a software component, and the flag bit each one sets. */
  datatype Field = MeasurementType | MeasurementVal | Version | SignerId | MeasurementDesc

  function FlagOf(f: Field): nat {
    match f
    case MeasurementType => 0
    case MeasurementVal => 1
    case Version => 3
    case SignerId => 5
    case MeasurementDesc => 6
  }

  predicate IsText(f: Field) {
    f.MeasurementType? || f.Version? || f.MeasurementDesc?
  }

  /** Label constants of the token profile; they are the cases of one C switch, hence distinct. */
  datatype Labels = Labels(
    swComponents: Int64, measurementType: Int64, measurementVal: Int64,
    version: Int64, signerId: Int64, measurementDesc: Int64)
  {
    function Of(f: Field): Int64 {
      match f
      case MeasurementType => measurementType
      case MeasurementVal => measurementVal
      case Version => version
      case SignerId => signerId
      case MeasurementDesc => measurementDesc
    }

    ghost predicate Distinct() {
      forall f, g :: Of(f) == Of(g) ==> f == g
    }
  }

  datatype Component = Component(
    measurementType: Slice, measurementVal: Slice, version: Slice,
    signerId: Slice, measurementDesc: Slice, flags: set<nat>)
  {
    function Get(f: Field): Slice {
      match f
      case MeasurementType => measurementType
      case MeasurementVal => measurementVal
      case Version => version
      case SignerId => signerId
      case MeasurementDesc => measurementDesc
    }

    function Set(f: Field, s: Slice): Component {
      var c := this.(flags := flags + {FlagOf(f)});
      match f
      case MeasurementType => c.(measurementType := s)
      case MeasurementVal => c.(measurementVal := s)
      case Version => c.(version := s)
      case SignerId => c.(signerId := s)
      case MeasurementDesc => c.(measurementDesc := s)
    }
  }

  const EMPTY := Component(NULL_SLICE, NULL_SLICE, NULL_SLICE, NULL_SLICE, NULL_SLICE, {})

  predicate Typed(d: Data, f: Field) {
    d.Value? && if IsText(f) then d.scalar.Text? else d.scalar.Bytes?
  }

  // ----- Recording claims -----

  datatype Known = Unknown | Known(field: Field)

  /** The switch on the label of a claim. */
  function Lookup(labels: Labels, c: Claim): Known {
    if !c.key.IntLabel? then Unknown
    else if c.key.n == labels.measurementType then Known(MeasurementType)
    else if c.key.n == labels.measurementVal then Known(MeasurementVal)
    else if c.key.n == labels.version then Known(Version)
    else if c.key.n == labels.signerId then Known(SignerId)
    else if c.key.n == labels.measurementDesc then Known(MeasurementDesc)
    else Unknown
  }

  datatype Folded = Folded(ok: bool, comp: Component)

  function Fold(labels: Labels, comp: Component, direct: seq<Claim>): Folded
    decreases |direct|
  {
    if direct == [] then Folded(true, comp)
    else
      var k := Lookup(labels, direct[0]);
      if k.Unknown? then Fold(labels, comp, direct[1..])
      else if !Typed(direct[0].data, k.field) then Folded(false, comp)
      else Fold(labels, comp.Set(k.field, direct[0].data.scalar.slice), direct[1..])
  }

  lemma {:induction false} FoldAppend(labels: Labels, comp: Component, a: seq<Claim>, b: seq<Claim>)
    ensures var r := Fold(labels, comp, a);
            Fold(labels, comp, a + b) == if r.ok then Fold(labels, r.comp, b) else r
    decreases |a|
  {
    if a == [] {
      assert a + b == b;
    } else {
      assert (a + b)[1..] == a[1..] + b;
      var k := Lookup(labels, a[0]);
      if k.Unknown? {
        FoldAppend(labels, comp, a[1..], b);
      } else if Typed(a[0].data, k.field) {
        FoldAppend(labels, comp.Set(k.field, a[0].data.scalar.slice), a[1..], b);
      }
    }
  }

  // ----- decode_sw_component -----

  datatype Decoded = Decoded(err: Err, comp: Component)

  function Verdict(labels: Labels, direct: seq<Claim>, walked: bool): Decoded {
    var r := Fold(labels, EMPTY, direct);
    Decoded(if !r.ok then CborType else if !walked then NotWellFormed else Success, r.comp)
  }

  function DecodeAt(labels: Labels, items: seq<Item>, pos: nat, item: Item, prior: Component): Decoded
    requires pos <= |items|
  {
    if !item.claim.data.MapHead? then Decoded(CborStructure, prior)
    else
      var v := Walk(items, pos, item.next);
      Verdict(labels, v.direct, v.ok)
  }

  /** The switch of the loop body: a known claim of the right type is recorded. */
  method TakeClaim(labels: Labels, comp: Component, c: Claim) returns (ok: bool, comp': Component)
    ensures Folded(ok, comp') == Fold(labels, comp, [c])
  {
    ok, comp' := true, comp;
    var k := Lookup(labels, c);
    if k.Known? {
      if Typed(c.data, k.field) {
        comp' := comp.Set(k.field, c.data.scalar.slice);
      } else {
        ok := false;
      }
    }
  }

  /** A claim of the wrong type decides the verdict, whatever follows it. */
  lemma FoldStops(labels: Labels, seen: seq<Claim>, c: Claim, comp: Component, direct: seq<Claim>, walked: bool)
    requires Fold(labels, EMPTY, seen) == Folded(true, comp) && !Fold(labels, comp, [c]).ok
    requires seen + [c] <= direct
    ensures Verdict(labels, direct, walked) == Decoded(CborType, Fold(labels, comp, [c]).comp)
  {
    var n := |seen| + 1;
    assert direct == (seen + [c]) + direct[n..];
    FoldAppend(labels, EMPTY, seen, [c]);
    FoldAppend(labels, EMPTY, seen + [c], direct[n..]);
  }

  /** What one round of the loop makes of the next claim, for the verdict on the whole map. */
  lemma DecodeStep(labels: Labels, items: seq<Item>, start: nat, level: nat, seen: seq<Claim>, comp: Component,
                   pos: nat, next: nat)
    requires start <= |items| && pos <= |items| && next >= level
    requires Scanned(items, start, level, seen, pos, next) && Fold(labels, EMPTY, seen) == Folded(true, comp)
    ensures var w := Walk(items, start, level);
            var verdict := Verdict(labels, w.direct, w.ok);
            if pos == |items| then verdict == Decoded(NotWellFormed, comp)
            else
              var s, seen' := Consume(items, pos + 1, items[pos]), seen + [items[pos].claim];
              var f := Fold(labels, comp, [items[pos].claim]);
              if !f.ok then verdict == Decoded(CborType, f.comp)
              else if !s.ok then verdict == Decoded(NotWellFormed, f.comp)
              else
                && Scanned(items, start, level, seen', s.pos, s.next)
                && Fold(labels, EMPTY, seen') == Folded(true, f.comp)
                && (s.next < level ==> verdict == Decoded(Success, f.comp))
  {
    var w := Walk(items, start, level);
    if pos == |items| {
      assert w.direct == seen + [] == seen;
    } else {
      var c := items[pos].claim;
      ScanStep(items, start, level, seen, pos, next);
      FoldAppend(labels, EMPTY, seen, [c]);
      if !Fold(labels, comp, [c]).ok {
        FoldStops(labels, seen, c, comp, w.direct, w.ok);
      }
    }
  }

  method DecodeSwComponent(labels: Labels, d: Decoder, item: Item, prior: Component) returns (r: Decoded)
    requires d.Valid()
    modifies d
    ensures d.Valid()
    ensures r == DecodeAt(labels, d.items, old(d.pos), item, prior)
  {
    if !item.claim.data.MapHead? {
      return Decoded(CborStructure, prior);
    }
    var comp := EMPTY;
    ghost var start, level, seen := d.pos, item.next, [];
    var next := item.next;
    ghost var w := Walk(d.items, start, level);
    assert [] + w.direct == w.direct;
    while true
      invariant d.Valid() && next >= level
      invariant Scanned(d.items, start, level, seen, d.pos, next)
      invariant Fold(labels, EMPTY, seen) == Folded(true, comp)
      decreases |d.items| - d.pos
    {
      var round;
      round, seen := DecodeClaim(labels, d, comp, start, level, seen, next);
      if round.Over? {
        return round.result;
      }
      comp, next := round.comp, round.next;
      if next < item.next {
        return Decoded(Success, comp);
      }
    }
  }

  datatype Round = Going(comp: Component, next: nat) | Over(result: Decoded)

  /** One round of the loop above: the next claim is recorded and what is nested in it consumed. */
  method DecodeClaim(labels: Labels, d: Decoder, comp: Component,
                     ghost start: nat, ghost level: nat, ghost seen: seq<Claim>, ghost before: nat)
    returns (round: Round, ghost seen': seq<Claim>)
    requires d.Valid() && start <= |d.items| && before >= level
    requires Scanned(d.items, start, level, seen, d.pos, before) && Fold(labels, EMPTY, seen) == Folded(true, comp)
    modifies d
    ensures d.Valid()
    ensures var w := Walk(d.items, start, level);
            var verdict := Verdict(labels, w.direct, w.ok);
            match round
            case Over(result) => result == verdict
            case Going(comp', next) =>
              && d.pos > old(d.pos)
              && Scanned(d.items, start, level, seen', d.pos, next)
              && Fold(labels, EMPTY, seen') == Folded(true, comp')
              && (next < level ==> verdict == Decoded(Success, comp'))
  {
    DecodeStep(labels, d.items, start, level, seen, comp, d.pos, before);
    seen' := seen;
    var ok, claim := d.GetNext();
    if !ok {
      return Over(Decoded(NotWellFormed, comp)), seen';
    }
    var typed, comp' := TakeClaim(labels, comp, claim.claim);
    if !typed {
      return Over(Decoded(CborType, comp')), seen';
    }
    seen' := seen + [claim.claim];
    var next;
    ok, next := d.ConsumeItem(claim);
    round := if ok then Going(comp', next) else Over(Decoded(NotWellFormed, comp'));
  }

  // ----- attest_token_get_sw_component -----

  datatype Picked = Picked(pos: nat, item: Item) | Unpicked(err: Err)

  /** Step over `index` members of the array whose content starts at `pos`. */
  function Pick(items: seq<Item>, pos: nat, exit: nat, index: nat): (r: Picked)
    requires pos <= |items|
    ensures r.Picked? ==> r.pos <= |items|
    decreases |items| - pos
  {
    if pos == |items| then Unpicked(NotWellFormed)
    else if items[pos].next <= exit then Unpicked(NotFound)
    else if index == 0 then Picked(pos + 1, items[pos])
    else
      var s := Consume(items, pos + 1, items[pos]);
      if !s.ok then Unpicked(NotWellFormed) else Pick(items, s.pos, exit, index - 1)
  }

  function FetchAt(
    labels: Labels, items: seq<Item>, pos: nat, exit: nat, index: nat, prior: Component): Decoded
    requires pos <= |items|
  {
    match Pick(items, pos, exit, index)
    case Unpicked(err) => Decoded(err, prior)
    case Picked(pos, item) => DecodeAt(labels, items, pos, item, prior)
  }

  function GetAt(labels: Labels, items: seq<Item>, index: nat, prior: Component): Decoded {
    var s := SeekInMap(items, labels.swComponents);
    if s.err != Success then Decoded(s.err, prior)
    else if !s.item.claim.data.ArrayHead? then Decoded(CborType, prior)
    else FetchAt(labels, items, s.pos, s.item.next, index, prior)
  }

  method GetSwComponent(labels: Labels, me: Context, index: nat, prior: Component) returns (r: Decoded)
    ensures r == if me.lastError != Success then Decoded(me.lastError, prior)
                 else GetAt(labels, ItemsOf(me.payload), index, prior)
  {
    if me.lastError != Success {
      return Decoded(me.lastError, prior);
    }
    var d := new Decoder(ItemsOf(me.payload));
    var err, arrayItem := d.DecodeToLabeledItem(labels.swComponents);
    if err != Success {
      return Decoded(err, prior);
    }
    if !arrayItem.claim.data.ArrayHead? {
      return Decoded(CborType, prior);
    }
    var exit, requested := arrayItem.next, index;
    ghost var goal := Pick(d.items, d.pos, exit, index);
    while true
      invariant d.Valid()
      invariant Pick(d.items, d.pos, exit, requested) == goal
      decreases |d.items| - d.pos
    {
      var ok, item := d.GetNext();
      if !ok {
        return Decoded(NotWellFormed, prior);
      }
      if item.next <= exit {
        return Decoded(NotFound, prior);
      }
      if requested == 0 {
        r := DecodeSwComponent(labels, d, item, prior);
        return;
      }
      requested := requested - 1;
      var next;
      ok, next := d.ConsumeItem(item);
      if !ok {
        return Decoded(NotWellFormed, prior);
      }
    }
  }
}
