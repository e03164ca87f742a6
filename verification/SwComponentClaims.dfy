/**
 The software component told claim by claim: which type each of the five claims must have in
 the map, where its slice ends up, and which bit says so.
 */
module SwComponentClaims {
  import opened Cbor
  import opened CborCursor
  import opened CborRefinement
  import opened SwComponents
  import opened SwComponentTree
  import opened SwComponentTheorems

  // ----- The last claim with a label -----

  ghost predicate IsLast(es: seq<Node>, wanted: Int64, i: nat) {
    i < |es| && es[i].key == IntLabel(wanted) && forall j :: i < j < |es| ==> es[j].key != IntLabel(wanted)
  }

  lemma {:induction false} TagsAt(es: seq<Node>)
    ensures |Tags(es)| == |es| && forall i :: 0 <= i < |es| ==> Tags(es)[i] == Tag(es[i])
  {
    if es != [] {
      TagsAt(es[1..]);
      assert forall i :: 0 < i < |es| ==> es[i] == es[1..][i - 1] && Tags(es)[i] == Tags(es[1..])[i - 1];
    }
  }

  /** LastMatch, said by position. */
  lemma {:induction false} LastMatchAt(direct: seq<Claim>, wanted: Int64, i: nat)
    requires i < |direct| && direct[i].key == IntLabel(wanted)
    requires forall j :: i < j < |direct| ==> direct[j].key != IntLabel(wanted)
    ensures LastMatch(direct, wanted) == direct[i].data
    decreases |direct|
  {
    if i < |direct| - 1 {
      LastMatchAt(direct[..|direct| - 1], wanted, i);
    }
  }

  lemma LastNode(es: seq<Node>, wanted: Int64, i: nat)
    requires IsLast(es, wanted, i)
    ensures LastMatch(Tags(es), wanted) == Tag(es[i]).data != NoData
  {
    TagsAt(es);
    LastMatchAt(Tags(es), wanted, i);
  }

  lemma NoNode(es: seq<Node>, wanted: Int64)
    requires !Carries(es, wanted)
    ensures LastMatch(Tags(es), wanted) == NoData
  {
    NoTag(es, wanted);
    LastMatchNone(Tags(es), wanted);
  }

  lemma {:induction false} SomeLast(es: seq<Node>, wanted: Int64) returns (i: nat)
    requires Carries(es, wanted)
    ensures IsLast(es, wanted, i)
    decreases |es|
  {
    var n := |es| - 1;
    if es[n].key == IntLabel(wanted) {
      i := n;
    } else {
      var j :| 0 <= j < |es| && es[j].key == IntLabel(wanted);
      assert es[..n][j] == es[j];
      i := SomeLast(es[..n], wanted);
    }
  }

  // ----- Types -----

  /** Every claim with the label is a text string. */
  ghost predicate AllText(es: seq<Node>, wanted: Int64) {
    forall i :: 0 <= i < |es| && es[i].key == IntLabel(wanted) ==> es[i].Leaf? && es[i].scalar.Text?
  }

  /** Every claim with the label is a byte string. */
  ghost predicate AllBytes(es: seq<Node>, wanted: Int64) {
    forall i :: 0 <= i < |es| && es[i].key == IntLabel(wanted) ==> es[i].Leaf? && es[i].scalar.Bytes?
  }

  ghost predicate WellTyped(labels: SwComponents.Labels, es: seq<Node>) {
    && AllText(es, labels.measurementType) && AllText(es, labels.version) && AllText(es, labels.measurementDesc)
    && AllBytes(es, labels.measurementVal) && AllBytes(es, labels.signerId)
  }

  ghost predicate FieldOk(labels: SwComponents.Labels, es: seq<Node>, f: Field) {
    match f
    case MeasurementType => AllText(es, labels.measurementType)
    case MeasurementVal => AllBytes(es, labels.measurementVal)
    case Version => AllText(es, labels.version)
    case SignerId => AllBytes(es, labels.signerId)
    case MeasurementDesc => AllText(es, labels.measurementDesc)
  }

  ghost predicate TypedIn(labels: SwComponents.Labels, direct: seq<Claim>, f: Field) {
    forall i :: 0 <= i < |direct| && direct[i].key == IntLabel(labels.Of(f)) ==> Typed(direct[i].data, f)
  }

  lemma FieldTyped(labels: SwComponents.Labels, es: seq<Node>, f: Field)
    ensures FieldOk(labels, es, f) <==> TypedIn(labels, Tags(es), f)
  {
    TagsAt(es);
  }

  lemma FiveFields(labels: SwComponents.Labels, direct: seq<Claim>)
    ensures AllTyped(labels, direct) <==>
            && TypedIn(labels, direct, MeasurementType) && TypedIn(labels, direct, MeasurementVal)
            && TypedIn(labels, direct, Version) && TypedIn(labels, direct, SignerId)
            && TypedIn(labels, direct, MeasurementDesc)
  {
    if TypedIn(labels, direct, MeasurementType) && TypedIn(labels, direct, MeasurementVal) &&
       TypedIn(labels, direct, Version) && TypedIn(labels, direct, SignerId) && TypedIn(labels, direct, MeasurementDesc)
    {
      forall f: Field ensures TypedIn(labels, direct, f) {
        match f {
          case MeasurementType => case MeasurementVal => case Version => case SignerId => case MeasurementDesc =>
        }
      }
    }
  }

  lemma TypesMeaning(labels: SwComponents.Labels, es: seq<Node>)
    ensures AllTyped(labels, Tags(es)) <==> WellTyped(labels, es)
  {
    FiveFields(labels, Tags(es));
    FieldTyped(labels, es, MeasurementType);
    FieldTyped(labels, es, MeasurementVal);
    FieldTyped(labels, es, Version);
    FieldTyped(labels, es, SignerId);
    FieldTyped(labels, es, MeasurementDesc);
  }

  // ----- Contents -----

  /** A field of the result: flagged iff there is a claim with the label, with the slice of the last one. */
  ghost predicate Reported(es: seq<Node>, wanted: Int64, flag: bool, slice: Slice) {
    && (flag <==> Carries(es, wanted))
    && (!flag ==> slice == Slice(0, 0))
    && (forall i: nat :: IsLast(es, wanted, i) ==> es[i].Leaf? && es[i].scalar in {Text(slice), Bytes(slice)})
  }

  lemma FieldReported(labels: SwComponents.Labels, es: seq<Node>, comp: Component, f: Field)
    requires Holds(labels, Tags(es), comp, f)
    ensures Reported(es, labels.Of(f), SwComponents.FlagOf(f) in comp.flags, comp.Get(f))
  {
    var wanted := labels.Of(f);
    if Carries(es, wanted) {
      var i := SomeLast(es, wanted);
      LastNode(es, wanted, i);
      forall j: nat | IsLast(es, wanted, j) ensures j == i {
      }
    } else {
      NoNode(es, wanted);
    }
  }

  /**
   A map without hollow claims behind filled members: the fetch succeeds iff measurement type,
   version and measurement description are text strings and measurement value and signer id are
   byte strings wherever they occur.  Each then has the slice of its last claim and its own bit.
   */
  lemma ClaimsFetched(labels: SwComponents.Labels, pre: seq<Node>, comps: seq<Node>, post: seq<Node>,
                      index: nat, prior: Component)
    requires labels.Distinct() && Reachable(labels, pre)
    requires index < |comps| && AllFilled(comps[..index + 1]) && comps[index].Map? && NoHollow(comps[index].entries)
    ensures var r := GetAt(labels, Token(SwToken(labels, pre, comps, post)), index, prior);
            var es := comps[index].entries;
            && r.err == (if WellTyped(labels, es) then Success else CborType)
            && (r.err == Success ==>
                  && Reported(es, labels.measurementType, 0 in r.comp.flags, r.comp.measurementType)
                  && Reported(es, labels.measurementVal, 1 in r.comp.flags, r.comp.measurementVal)
                  && Reported(es, labels.version, 3 in r.comp.flags, r.comp.version)
                  && Reported(es, labels.signerId, 5 in r.comp.flags, r.comp.signerId)
                  && Reported(es, labels.measurementDesc, 6 in r.comp.flags, r.comp.measurementDesc)
                  && r.comp.flags <= {0, 1, 3, 5, 6})
  {
    var es := comps[index].entries;
    var r := GetAt(labels, Token(SwToken(labels, pre, comps, post)), index, prior);
    ComponentFetched(labels, pre, comps, post, index, prior);
    TypesMeaning(labels, es);
    if r.err == Success {
      FieldReported(labels, es, r.comp, MeasurementType);
      FieldReported(labels, es, r.comp, MeasurementVal);
      FieldReported(labels, es, r.comp, Version);
      FieldReported(labels, es, r.comp, SignerId);
      FieldReported(labels, es, r.comp, MeasurementDesc);
      FetchedFlags(labels, pre, comps, post, index, prior);
    }
  }

  lemma FetchedFlags(labels: SwComponents.Labels, pre: seq<Node>, comps: seq<Node>, post: seq<Node>,
                     index: nat, prior: Component)
    requires Reachable(labels, pre)
    requires index < |comps| && AllFilled(comps[..index + 1]) && comps[index].Map?
    ensures GetAt(labels, Token(SwToken(labels, pre, comps, post)), index, prior).comp.flags <= KNOWN_FLAGS
  {
    ArrayReached(labels, pre, comps, post, index, prior);
    PickMeaning(comps, post != [], index);
    FlagsKnown(labels, EMPTY, Tags(Seen(comps[index].entries)));
  }

  // ----- Other shapes -----

  /** A token that is no map; a claim with the array's label that is no array; a member that is no map. */
  lemma OtherShapes(labels: SwComponents.Labels, root: Node, pre: seq<Node>, n: Node, post: seq<Node>,
                    comps: seq<Node>, index: nat, prior: Component)
    requires Reachable(labels, pre)
    ensures !root.Map? ==> GetAt(labels, Token(root), index, prior) == Decoded(CborStructure, prior)
    ensures n.key == IntLabel(labels.swComponents) && !n.Array? ==>
              GetAt(labels, Token(Map(NoLabel, pre + ([n] + post))), index, prior) == Decoded(CborType, prior)
    ensures index < |comps| && AllFilled(comps[..index + 1]) && !comps[index].Map? ==>
              GetAt(labels, Token(SwToken(labels, pre, comps, post)), index, prior) == Decoded(CborStructure, prior)
  {
    GetRefines(labels, root, index, prior);
    LocateMeaning(pre, [n] + post, labels.swComponents);
    GetRefines(labels, Map(NoLabel, pre + ([n] + post)), index, prior);
    ArrayReached(labels, pre, comps, post, index, prior);
    PickMeaning(comps, post != [], index);
  }
}
