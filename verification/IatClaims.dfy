/**
 The single-claim getters, the batch getter and the component count of the attestation
 token decoder.  All of them search the top-level map; the batch getter does so once for
 all labels and leaves out the final check that the others make.
 */
module IatClaims {
  import opened Common
  import opened Cbor
  import opened CborCursor

  const INT64_MAX: int := 0x7FFF_FFFF_FFFF_FFFF
  const UINT32_MAX: int := 0xFFFF_FFFF
  const NO_SW_COMPONENT_FIXED_VALUE: int := 1

  datatype Kind = TextString | ByteString | ArrayKind | Int64Kind

  predicate HasKind(d: Data, k: Kind) {
    match k
    case TextString => d.Value? && d.scalar.Text?
    case ByteString => d.Value? && d.scalar.Bytes?
    case ArrayKind => d.ArrayHead?
    case Int64Kind => d.Value? && d.scalar.Int?
  }

  datatype Outcome<T> = Outcome(err: Err, value: T)

  // ----- Searching for one label -----

  datatype Looked = Looked(err: Err, data: Data, finish: FinishResult)

  /**
   The search for one label, with what QCBORDecode_Finish would say behind it.  A label of 0 ends
   the list of labels at its start: the slot for the item is then neither cleared nor written,
   and what the stack had there, `junk`, is taken for the claim.
   */
  function LookFor(items: seq<Item>, wanted: Int64, junk: Data): Looked {
    var s := SearchMap(items, 0);
    var d := if wanted == 0 then junk else LastMatch(s.visit.direct, wanted);
    Looked(if s.err != Success then s.err else if d == NoData then NotFound else Success,
           d, FinishAt(items, s.visit.pos))
  }

  /** qcbor_util_get_item_in_map */
  method GetItemInMap(d: Decoder, wanted: Int64, junk: Data) returns (err: Err, data: Data)
    requires d.Valid() && d.pos == 0
    modifies d
    ensures d.Valid()
    ensures var l := LookFor(d.items, wanted, junk);
            err == l.err && data == l.data && FinishAt(d.items, d.pos) == l.finish
  {
    var found;
    if wanted == 0 {
      err, found := d.GetItemsInMap([]);
      data := junk;
    } else {
      err, found := d.GetItemsInMap([wanted]);
      data := found[0];
    }
    if err == Success && data == NoData {
      err := NotFound;
    }
  }

  function TopLevel(p: Payload, wanted: Int64, kind: Kind, junk: Data, prior: Data): Outcome<Data> {
    if p.NullPayload? then Outcome(CoseValidation, prior)
    else
      var l := LookFor(p.items, wanted, junk);
      if l.err != Success then Outcome(l.err, prior)
      else if l.finish != FinishOk then
        Outcome(if l.finish == StillOpen then CborStructure else NotWellFormed, prior)
      else if !HasKind(l.data, kind) then Outcome(CborType, prior)
      else Outcome(Success, l.data)
  }

  /** qcbor_util_get_top_level_item_in_map */
  method GetTopLevelItem(p: Payload, wanted: Int64, kind: Kind, junk: Data, prior: Data) returns (r: Outcome<Data>)
    ensures r == TopLevel(p, wanted, kind, junk, prior)
    ensures p.NullPayload? ==> r == Outcome(CoseValidation, prior)
  {
    if p.NullPayload? {
      return Outcome(CoseValidation, prior);
    }
    var d := new Decoder(p.items);
    var err, data := GetItemInMap(d, wanted, junk);
    if err != Success {
      return Outcome(err, prior);
    }
    var finish := d.Finish();
    if finish != FinishOk {
      return Outcome(if finish == StillOpen then CborStructure else NotWellFormed, prior);
    }
    if !HasKind(data, kind) {
      return Outcome(CborType, prior);
    }
    return Outcome(Success, data);
  }

  // ----- Single getters -----

  function StringAt(me: Context, wanted: Int64, text: bool, junk: Data, prior: Slice): Outcome<Slice> {
    if me.lastError != Success then Outcome(me.lastError, NULL_SLICE)
    else
      var r := TopLevel(me.payload, wanted, if text then TextString else ByteString, junk, NoData);
      if r.err == Success then Outcome(Success, r.value.scalar.slice) else Outcome(r.err, prior)
  }

  /** attest_token_decode_get_bstr and attest_token_decode_get_tstr */
  method GetString(me: Context, wanted: Int64, text: bool, junk: Data, prior: Slice) returns (r: Outcome<Slice>)
    ensures r == StringAt(me, wanted, text, junk, prior)
    ensures me.lastError != Success ==> r == Outcome(me.lastError, NULL_SLICE)
    // The interface promises a null claim after every error.
    ensures r.err != Success ==> (r.value == NULL_SLICE <==> me.lastError != Success || prior == NULL_SLICE)
  {
    if me.lastError != Success {
      return Outcome(me.lastError, NULL_SLICE);
    }
    var t := GetTopLevelItem(me.payload, wanted, if text then TextString else ByteString, junk, NoData);
    if t.err != Success {
      return Outcome(t.err, prior);
    }
    return Outcome(Success, t.value.scalar.slice);
  }

  function IntAt(me: Context, wanted: Int64, junk: Data, prior: Int64): Outcome<Int64> {
    if me.lastError != Success then Outcome(me.lastError, 0)
    else
      var l := LookFor(ItemsOf(me.payload), wanted, junk);
      if l.err != Success then Outcome(l.err, prior)
      else
        var err := if l.finish == FinishOk then Success else CborStructure;
        if l.data.Value? && l.data.scalar.Int? then Outcome(err, l.data.scalar.i)
        else if l.data.Value? && l.data.scalar.UInt? then
          if l.data.scalar.u < INT64_MAX then Outcome(err, l.data.scalar.u) else Outcome(IntegerValue, prior)
        else Outcome(CborType, prior)
  }

  method GetInt(me: Context, wanted: Int64, junk: Data, prior: Int64) returns (r: Outcome<Int64>)
    ensures r == IntAt(me, wanted, junk, prior)
    ensures me.lastError != Success ==> r == Outcome(me.lastError, 0)
  {
    if me.lastError != Success {
      return Outcome(me.lastError, 0);
    }
    var d := new Decoder(ItemsOf(me.payload));
    var err, data := GetItemInMap(d, wanted, junk);
    if err != Success {
      return Outcome(err, prior);
    }
    if d.Finish() != FinishOk {
      err := CborStructure;
    }
    if data.Value? && data.scalar.Int? {
      return Outcome(err, data.scalar.i);
    } else if data.Value? && data.scalar.UInt? {
      if data.scalar.u < INT64_MAX {
        return Outcome(err, data.scalar.u);
      }
      return Outcome(IntegerValue, prior);
    }
    return Outcome(CborType, prior);
  }

  function UIntAt(me: Context, wanted: Int64, junk: Data, prior: UInt64): Outcome<UInt64> {
    if me.lastError != Success then Outcome(me.lastError, 0)
    else
      var l := LookFor(ItemsOf(me.payload), wanted, junk);
      if l.err != Success then Outcome(l.err, prior)
      else
        var err := if l.finish == FinishOk then Success else CborStructure;
        if l.data.Value? && l.data.scalar.UInt? then Outcome(err, l.data.scalar.u)
        else if l.data.Value? && l.data.scalar.Int? then
          if l.data.scalar.i >= 0 then Outcome(err, l.data.scalar.i) else Outcome(IntegerValue, prior)
        else Outcome(CborType, prior)
  }

  method GetUInt(me: Context, wanted: Int64, junk: Data, prior: UInt64) returns (r: Outcome<UInt64>)
    ensures r == UIntAt(me, wanted, junk, prior)
    ensures me.lastError != Success ==> r == Outcome(me.lastError, 0)
  {
    if me.lastError != Success {
      return Outcome(me.lastError, 0);
    }
    var d := new Decoder(ItemsOf(me.payload));
    var err, data := GetItemInMap(d, wanted, junk);
    if err != Success {
      return Outcome(err, prior);
    }
    if d.Finish() != FinishOk {
      err := CborStructure;
    }
    if data.Value? && data.scalar.UInt? {
      return Outcome(err, data.scalar.u);
    } else if data.Value? && data.scalar.Int? {
      if data.scalar.i >= 0 {
        return Outcome(err, data.scalar.i);
      }
      return Outcome(IntegerValue, prior);
    }
    return Outcome(CborType, prior);
  }

  // The labels from here on are fixed and not 0; junk never gets into their claims.

  function ClientIdAt(me: Context, wanted: Int64, stale: Int64, prior: Int32): Outcome<Int32> {
    var r := IntAt(me, wanted, NoData, stale);
    if r.err != Success then Outcome(r.err, prior)
    else if r.value > 0x7FFF_FFFF || r.value < -0x8000_0000 then Outcome(IntegerValue, prior)
    else Outcome(Success, r.value)
  }

  /** The getter tests its 64-bit local even when the lookup failed and never wrote it: `stale`. */
  function LifecycleAt(me: Context, wanted: Int64, stale: UInt64, prior: UInt32): Outcome<UInt32> {
    var r := UIntAt(me, wanted, NoData, stale);
    if r.value > UINT32_MAX then Outcome(IntegerValue, prior) else Outcome(r.err, Unsigned(r.value))
  }

  method GetClientId(me: Context, wanted: Int64, stale: Int64, prior: Int32) returns (r: Outcome<Int32>)
    requires wanted != 0
    ensures r == ClientIdAt(me, wanted, stale, prior)
    ensures me.lastError != Success ==> r == Outcome(me.lastError, prior)
  {
    var v := GetInt(me, wanted, NoData, stale);
    if v.err != Success {
      return Outcome(v.err, prior);
    }
    if v.value > 0x7FFF_FFFF || v.value < -0x8000_0000 {
      return Outcome(IntegerValue, prior);
    }
    return Outcome(Success, v.value);
  }

  method GetSecurityLifecycle(me: Context, wanted: Int64, stale: UInt64, prior: UInt32) returns (r: Outcome<UInt32>)
    requires wanted != 0
    ensures r == LifecycleAt(me, wanted, stale, prior)
    ensures me.lastError != Success ==> r == Outcome(me.lastError, 0)
    // After a failed lookup the local that nothing was written to is tested and handed out.
    ensures me.lastError == Success && LookFor(ItemsOf(me.payload), wanted, NoData).err != Success ==>
              r == if stale <= UINT32_MAX then Outcome(LookFor(ItemsOf(me.payload), wanted, NoData).err, stale)
                   else Outcome(IntegerValue, prior)
  {
    var v := GetUInt(me, wanted, NoData, stale);
    if v.value > UINT32_MAX {
      return Outcome(IntegerValue, prior);
    }
    return Outcome(v.err, Unsigned(v.value));
  }

  // ----- Batch getter -----

  /** The string claims of the batch, in the order of their flag indexes. */
  datatype Claims = Nonce | InstanceId | BootSeed | CertRef | ImplementationId | Profile | VerifService

  const ALL_STRINGS: seq<Claims> := [Nonce, InstanceId, BootSeed, CertRef, ImplementationId, Profile, VerifService]

  const CLIENT_ID_FLAG := 5
  const SECURITY_LIFECYCLE_FLAG := 6

  function FlagOf(c: Claims): nat {
    match c
    case Nonce => 0
    case InstanceId => 1
    case BootSeed => 2
    case CertRef => 3
    case ImplementationId => 4
    case Profile => 7
    case VerifService => 8
  }

  predicate IsText(c: Claims) {
    c.CertRef? || c.Profile? || c.VerifService?
  }

  /** The label at each flag index, non-zero because 0 ends the list. */
  type Labels = l: seq<Int64> | |l| == 9 && 0 !in l witness [1, 1, 1, 1, 1, 1, 1, 1, 1]

  datatype Iat = Iat(strings: map<Claims, Slice>, clientId: Int32, lifecycle: UInt32, flags: set<nat>)

  const EMPTY_IAT := Iat(map[], 0, 0, {})

  function TakeString(iat: Iat, c: Claims, d: Data): Iat {
    if HasKind(d, if IsText(c) then TextString else ByteString) then
      iat.(strings := iat.strings[c := d.scalar.slice], flags := iat.flags + {FlagOf(c)})
    else iat
  }

  /** The range test of the source is a disjunction that every 64-bit value passes. */
  function TakeClientId(iat: Iat, d: Data): Iat {
    if HasKind(d, Int64Kind) && (d.scalar.i < 0x7FFF_FFFF || d.scalar.i > -0x8000_0000) then
      iat.(clientId := Signed(Unsigned(d.scalar.i)), flags := iat.flags + {CLIENT_ID_FLAG})
    else iat
  }

  function TakeLifecycle(iat: Iat, d: Data): Iat {
    if HasKind(d, Int64Kind) && d.scalar.i < UINT32_MAX then
      iat.(lifecycle := Unsigned(d.scalar.i), flags := iat.flags + {SECURITY_LIFECYCLE_FLAG})
    else iat
  }

  /** The labels of a list: up to the first 0. */
  function Listed(slots: seq<Int64>): (l: seq<Int64>)
    ensures 0 !in l && l <= slots
  {
    if slots == [] || slots[0] == 0 then [] else [slots[0]] + Listed(slots[1..])
  }

  /** attest_token_decode_get_iat_simple; `stray` are the list slots the profile leaves unset. */
  method GetIatSimple(me: Context, labels: Labels, stray: seq<Int64>) returns (err: Err, iat: Iat)
    requires |stray| <= 2
    ensures me.lastError != Success ==> err == me.lastError && iat == EMPTY_IAT
    ensures me.lastError == Success ==>
              var s := SearchMap(ItemsOf(me.payload), 0);
              && err == s.err
              && (err != Success ==> iat == EMPTY_IAT)
              && (err == Success ==> iat == Batch(labels, s.visit.direct))
  {
    iat := EMPTY_IAT;
    if me.lastError != Success {
      return me.lastError, iat;
    }
    var d := new Decoder(ItemsOf(me.payload));
    var found;
    var list := labels + Listed(stray);
    err, found := d.GetItemsInMap(list);
    if err != Success {
      return;
    }
    ghost var direct := SearchMap(ItemsOf(me.payload), 0).visit.direct;
    assert forall j :: 0 <= j < 9 ==> list[j] == labels[j];
    assert forall j :: 0 <= j < 9 ==> found[j] == LastMatch(direct, labels[j]);
    iat := TakeString(iat, Nonce, found[0]);
    iat := TakeString(iat, InstanceId, found[1]);
    iat := TakeString(iat, BootSeed, found[2]);
    iat := TakeString(iat, CertRef, found[3]);
    iat := TakeString(iat, ImplementationId, found[4]);
    iat := TakeClientId(iat, found[5]);
    iat := TakeLifecycle(iat, found[6]);
    iat := TakeString(iat, Profile, found[7]);
    iat := TakeString(iat, VerifService, found[8]);
  }

  /** The batch as a function of the claims the search visited. */
  function Batch(labels: Labels, direct: seq<Claim>): Iat {
    var a := TakeString(EMPTY_IAT, Nonce, LastMatch(direct, labels[0]));
    var b := TakeString(a, InstanceId, LastMatch(direct, labels[1]));
    var c := TakeString(b, BootSeed, LastMatch(direct, labels[2]));
    var d := TakeString(c, CertRef, LastMatch(direct, labels[3]));
    var e := TakeString(d, ImplementationId, LastMatch(direct, labels[4]));
    var f := TakeClientId(e, LastMatch(direct, labels[5]));
    var g := TakeLifecycle(f, LastMatch(direct, labels[6]));
    var h := TakeString(g, Profile, LastMatch(direct, labels[7]));
    TakeString(h, VerifService, LastMatch(direct, labels[8]))
  }

  // ----- Component count -----

  function CountAt(
    me: Context, sw: Int64, noSw: Int64, iotProfile: bool, prior: UInt32): Outcome<UInt32>
  {
    if me.lastError != Success then Outcome(me.lastError, prior)
    else
      var r := TopLevel(me.payload, sw, ArrayKind, NoData, NoData);
      if r.err == Success then
        if r.value.count == 0 then Outcome(SwComponentsMissing, prior)
        else Outcome(Success, Unsigned(r.value.count))
      else if iotProfile && r.err == NotFound then
        var q := TopLevel(me.payload, noSw, Int64Kind, NoData, NoData);
        if q.err == Success then
          if q.value.scalar.i == NO_SW_COMPONENT_FIXED_VALUE then Outcome(Success, 0)
          else Outcome(SwComponentsMissing, prior)
        else Outcome(if q.err == NotFound then SwComponentsMissing else q.err, prior)
      else Outcome(r.err, prior)
  }

  /** attest_token_get_num_sw_components */
  method GetNumSwComponents(me: Context, sw: Int64, noSw: Int64, iotProfile: bool, prior: UInt32)
    returns (r: Outcome<UInt32>)
    requires sw != 0 && noSw != 0
    ensures r == CountAt(me, sw, noSw, iotProfile, prior)
    ensures me.lastError != Success ==> r == Outcome(me.lastError, prior)
  {
    if me.lastError != Success {
      return Outcome(me.lastError, prior);
    }
    var t := GetTopLevelItem(me.payload, sw, ArrayKind, NoData, NoData);
    if t.err != Success {
      var err := t.err;
      if iotProfile && err == NotFound {
        var q := GetTopLevelItem(me.payload, noSw, Int64Kind, NoData, NoData);
        err := q.err;
        if err == Success {
          if q.value.scalar.i == NO_SW_COMPONENT_FIXED_VALUE {
            return Outcome(Success, 0);
          }
          err := SwComponentsMissing;
        } else if err == NotFound {
          err := SwComponentsMissing;
        }
      }
      return Outcome(err, prior);
    }
    if t.value.count == 0 {
      return Outcome(SwComponentsMissing, prior);
    }
    return Outcome(Success, Unsigned(t.value.count));
  }
}
