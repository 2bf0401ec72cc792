/**
 The canonical JSON form of one bounded native value (mmi/canonical.py): sorted keys,
 minimal escapes, no spaces, UTF-8, with depth, node and byte limits.
 */
module Canonical {
  import opened Outcomes
  import opened Digits
  import opened Texts
  import opened JsonValues
  import opened JsonText
  import opened JsonRoundTrip

  const MAXIMUM_CANONICAL_JSON_BYTES: int := 1_048_576
  const MAXIMUM_CANONICAL_DEPTH: nat := 32
  const MAXIMUM_CANONICAL_NODES: nat := 16_384

  datatype CanonicalError =
    | BoundInvalid
    | DepthExceeded
    | NodeCountExceeded
    | FloatProhibited
    | CycleProhibited
    | ObjectKeyInvalid
    | TypeUnsupported
    | EncodingFailed
    | SizeExceeded

  // ----- the limits, walked in the order the snapshot walks them -----

  /** Nodes counted so far after visiting v at this depth, or the first limit it breaks. */
  function Admit(v: Json, depth: nat, count: nat): Result<nat, CanonicalError>
    decreases v
  {
    if depth > MAXIMUM_CANONICAL_DEPTH then Err(DepthExceeded)
    else if count + 1 > MAXIMUM_CANONICAL_NODES then Err(NodeCountExceeded)
    else
      match v
      case Float(_) => Err(FloatProhibited)
      case Arr(items) => AdmitItems(items, depth + 1, count + 1)
      case Obj(members) => AdmitMembers(members, depth + 1, count + 1)
      case _ => Ok(count + 1)
  }

  function AdmitItems(items: seq<Json>, depth: nat, count: nat): Result<nat, CanonicalError>
    decreases items
  {
    if items == [] then Ok(count)
    else
      match Admit(items[0], depth, count)
      case Err(e) => Err(e)
      case Ok(after) => AdmitItems(items[1..], depth, after)
  }

  function AdmitMembers(members: seq<Member>, depth: nat, count: nat): Result<nat, CanonicalError>
    decreases members
  {
    if members == [] then Ok(count)
    else
      match Admit(members[0].value, depth, count)
      case Err(e) => Err(e)
      case Ok(after) => AdmitMembers(members[1..], depth, after)
  }

  /** Integers inside too long for CPython to print. */
  predicate HasHugeInt(v: Json) {
    match v
    case Int(n) => !IntPrintable(n)
    case Arr(items) => exists i :: 0 <= i < |items| && HasHugeInt(items[i])
    case Obj(members) => exists i :: 0 <= i < |members| && HasHugeInt(members[i].value)
    case _ => false
  }

  function EncodeCanonical(v: Json): Option<Bytes> {
    if HasHugeInt(v) then None else Utf8Encode(Print(Normal(v)))
  }

  function CanonicalJsonBytes(v: Json, maximumBytes: int): Result<Bytes, CanonicalError> {
    if maximumBytes < 1 then Err(BoundInvalid)
    else
      match Admit(v, 0, 0)
      case Err(e) => Err(e)
      case Ok(_) =>
        match EncodeCanonical(v)
        case None => Err(EncodingFailed)
        case Some(encoded) =>
          if |encoded| > maximumBytes then Err(SizeExceeded) else Ok(encoded)
  }

  /** `json.loads` on UTF-8 bytes. */
  function LoadBytes(bs: Bytes, unique: bool): Parse<Json> {
    match Utf8Decode(bs)
    case None => Bad
    case Some(t) => Load(t, unique)
  }

  // ----- the limits by value -----

  lemma {:induction false} AdmitExactly(v: Json, depth: nat, count: nat)
    ensures var r := Admit(v, depth, count);
            && (r.Ok? <==> !HasFloat(v)
                           && depth + Depth(v) <= MAXIMUM_CANONICAL_DEPTH
                           && count + Nodes(v) <= MAXIMUM_CANONICAL_NODES)
            && (r.Ok? ==> r.value == count + Nodes(v))
    decreases v
  {
    match v
    case Arr(items) => AdmitItemsExactly(items, depth, count + 1);
    case Obj(members) => AdmitMembersExactly(members, depth, count + 1);
    case _ =>
  }

  lemma {:induction false} AdmitItemsExactly(items: seq<Json>, depth: nat, count: nat)
    ensures var r := AdmitItems(items, depth + 1, count);
            && (r.Ok? <==> !HasFloat(Arr(items))
                           && (items == [] || depth + DepthItems(items) <= MAXIMUM_CANONICAL_DEPTH)
                           && (items == [] || count + NodesItems(items) <= MAXIMUM_CANONICAL_NODES))
            && (r.Ok? ==> r.value == count + NodesItems(items))
    decreases items
  {
    if items != [] {
      AdmitExactly(items[0], depth + 1, count);
      assert HasFloat(Arr(items)) <==> HasFloat(items[0]) || HasFloat(Arr(items[1..])) by {
        if HasFloat(Arr(items)) && !HasFloat(items[0]) {
          var i :| 0 <= i < |items| && HasFloat(items[i]);
          assert items[1..][i - 1] == items[i];
        }
        if HasFloat(Arr(items[1..])) {
          var i :| 0 <= i < |items[1..]| && HasFloat(items[1..][i]);
          assert items[i + 1] == items[1..][i];
        }
      }
      AdmitItemsExactly(items[1..], depth, count + Nodes(items[0]));
      if items[1..] == [] {
        assert DepthItems(items[1..]) == 0 && NodesItems(items[1..]) == 0;
      }
    }
  }

  lemma {:induction false} AdmitMembersExactly(members: seq<Member>, depth: nat, count: nat)
    ensures var r := AdmitMembers(members, depth + 1, count);
            && (r.Ok? <==> !HasFloat(Obj(members))
                           && (members == [] || depth + DepthMembers(members) <= MAXIMUM_CANONICAL_DEPTH)
                           && (members == [] || count + NodesMembers(members) <= MAXIMUM_CANONICAL_NODES))
            && (r.Ok? ==> r.value == count + NodesMembers(members))
    decreases members
  {
    if members != [] {
      AdmitExactly(members[0].value, depth + 1, count);
      assert HasFloat(Obj(members)) <==> HasFloat(members[0].value) || HasFloat(Obj(members[1..])) by {
        if HasFloat(Obj(members)) && !HasFloat(members[0].value) {
          var i :| 0 <= i < |members| && HasFloat(members[i].value);
          assert members[1..][i - 1] == members[i];
        }
        if HasFloat(Obj(members[1..])) {
          var i :| 0 <= i < |members[1..]| && HasFloat(members[1..][i].value);
          assert members[i + 1] == members[1..][i];
        }
      }
      AdmitMembersExactly(members[1..], depth, count + Nodes(members[0].value));
      if members[1..] == [] {
        assert DepthMembers(members[1..]) == 0 && NodesMembers(members[1..]) == 0;
      }
    }
  }

  // ----- printing is undone by loading -----

  lemma {:induction false} AdmittedReadable(v: Json)
    requires WellFormed(v) && !HasFloat(v) && !HasHugeInt(v)
    ensures Readable(v)
  {
    match v
    case Arr(items) =>
      forall i | 0 <= i < |items| ensures Readable(items[i]) {
        AdmittedReadable(items[i]);
      }
    case Obj(members) =>
      forall i | 0 <= i < |members| ensures Readable(members[i].value) {
        AdmittedReadable(members[i].value);
      }
    case _ =>
  }

  /** The canonical bytes of a value load back as that value with its keys in order. */
  lemma CanonicalReloads(v: Json, maximumBytes: int, unique: bool)
    requires WellFormed(v)
    requires CanonicalJsonBytes(v, maximumBytes).Ok?
    ensures LoadBytes(CanonicalJsonBytes(v, maximumBytes).value, unique) == Parsed(Normal(v), [])
    ensures SameValue(v, Normal(v))
  {
    AdmitExactly(v, 0, 0);
    AdmittedReadable(v);
    NormalReadable(v);
    DecodeEncoded(Print(Normal(v)));
    LoadPrinted(Normal(v), unique);
    NormalIdempotent(v);
    NormalWellFormed(v);
    SameValueIsSameNormal(v, Normal(v));
  }

  /** Two values have the same canonical bytes exactly when they are equal up to key order. */
  lemma CanonicalInjective(v: Json, w: Json, vMaximum: int, wMaximum: int)
    requires WellFormed(v) && WellFormed(w)
    requires CanonicalJsonBytes(v, vMaximum).Ok? && CanonicalJsonBytes(w, wMaximum).Ok?
    ensures CanonicalJsonBytes(v, vMaximum).value == CanonicalJsonBytes(w, wMaximum).value
       <==> SameValue(v, w)
  {
    CanonicalReloads(v, vMaximum, true);
    CanonicalReloads(w, wMaximum, true);
    SameValueIsSameNormal(v, w);
  }

  // ----- the detached, sorted copy is as canonical as the original -----

  lemma {:induction false} InsertSmallest(m: Member, members: seq<Member>)
    requires SortedMembers([m] + members)
    ensures InsertMember(m, members) == [m] + members
  {
    if members != [] {
      assert ([m] + members)[0] == m && ([m] + members)[1] == members[0];
      BeforeStrict(m.key, members[0].key);
    }
  }

  lemma {:induction false} SortSorted(members: seq<Member>)
    requires SortedMembers(members)
    ensures SortMembers(members) == members
  {
    if members != [] {
      SortSorted(members[1..]);
      assert members == [members[0]] + members[1..];
      InsertSmallest(members[0], members[1..]);
    }
  }

  lemma {:induction false} NormalIdempotent(v: Json)
    requires WellFormed(v)
    ensures Normal(Normal(v)) == Normal(v)
  {
    match v
    case Arr(items) =>
      forall i | 0 <= i < |items| ensures Normal(Normal(items[i])) == Normal(items[i]) {
        NormalIdempotent(items[i]);
      }
      assert NormalItems(NormalItems(items)) == NormalItems(items);
    case Obj(members) =>
      NormalObject(members);
      var sorted := Normal(v).members;
      forall k | 0 <= k < |sorted| ensures Normal(sorted[k].value) == sorted[k].value {
        assert sorted[k] in multiset(NormalMembers(members));
        var i :| 0 <= i < |members| && NormalMembers(members)[i] == sorted[k];
        NormalIdempotent(members[i].value);
      }
      NormalOfNormalMembers(sorted);
    case _ =>
  }

  lemma NormalOfNormalMembers(members: seq<Member>)
    requires SortedMembers(members)
    requires forall k :: 0 <= k < |members| ==> Normal(members[k].value) == members[k].value
    ensures Normal(Obj(members)) == Obj(members)
  {
    assert NormalMembers(members) == members;
    SortSorted(members);
  }

  lemma {:induction false} InsertMeasures(m: Member, members: seq<Member>)
    ensures DepthMembers(InsertMember(m, members)) == MaxNat(1 + Depth(m.value), DepthMembers(members))
    ensures NodesMembers(InsertMember(m, members)) == Nodes(m.value) + NodesMembers(members)
  {
    if members != [] && Before(members[0].key, m.key) {
      InsertMeasures(m, members[1..]);
      assert ([members[0]] + InsertMember(m, members[1..]))[1..] == InsertMember(m, members[1..]);
    } else {
      assert ([m] + members)[1..] == members;
    }
  }

  lemma {:induction false} SortMeasures(members: seq<Member>)
    ensures DepthMembers(SortMembers(members)) == DepthMembers(members)
    ensures NodesMembers(SortMembers(members)) == NodesMembers(members)
  {
    if members != [] {
      SortMeasures(members[1..]);
      InsertMeasures(members[0], SortMembers(members[1..]));
    }
  }

  lemma {:induction false} NormalMeasures(v: Json)
    ensures Depth(Normal(v)) == Depth(v) && Nodes(Normal(v)) == Nodes(v)
    decreases v
  {
    match v
    case Arr(items) => NormalItemsMeasures(items);
    case Obj(members) =>
      NormalMembersMeasures(members);
      SortMeasures(NormalMembers(members));
    case _ =>
  }

  lemma {:induction false} NormalItemsMeasures(items: seq<Json>)
    ensures DepthItems(NormalItems(items)) == DepthItems(items)
    ensures NodesItems(NormalItems(items)) == NodesItems(items)
    decreases items
  {
    if items != [] {
      NormalMeasures(items[0]);
      NormalItemsMeasures(items[1..]);
      assert NormalItems(items)[1..] == NormalItems(items[1..]);
    }
  }

  lemma {:induction false} NormalMembersMeasures(members: seq<Member>)
    ensures DepthMembers(NormalMembers(members)) == DepthMembers(members)
    ensures NodesMembers(NormalMembers(members)) == NodesMembers(members)
    decreases members
  {
    if members != [] {
      NormalMeasures(members[0].value);
      NormalMembersMeasures(members[1..]);
      assert NormalMembers(members)[1..] == NormalMembers(members[1..]);
    }
  }

  lemma {:induction false} ReadableHasNone(v: Json)
    requires Readable(v)
    ensures !HasFloat(v) && !HasHugeInt(v)
  {
    match v
    case Arr(items) =>
      forall i | 0 <= i < |items| ensures !HasFloat(items[i]) && !HasHugeInt(items[i]) {
        ReadableHasNone(items[i]);
      }
    case Obj(members) =>
      forall i | 0 <= i < |members| ensures !HasFloat(members[i].value) && !HasHugeInt(members[i].value) {
        ReadableHasNone(members[i].value);
      }
    case _ =>
  }

  /** Detaching a value through its canonical bytes leaves its canonical bytes unchanged. */
  lemma DetachedIsCanonical(v: Json, maximumBytes: int, otherMaximum: int)
    requires WellFormed(v) && CanonicalJsonBytes(v, maximumBytes).Ok?
    requires otherMaximum >= |CanonicalJsonBytes(v, maximumBytes).value|
    requires otherMaximum >= 1
    ensures CanonicalJsonBytes(Normal(v), otherMaximum) == CanonicalJsonBytes(v, maximumBytes)
    ensures WellFormed(Normal(v))
  {
    AdmitExactly(v, 0, 0);
    AdmittedReadable(v);
    NormalReadable(v);
    ReadableHasNone(Normal(v));
    NormalMeasures(v);
    AdmitExactly(Normal(v), 0, 0);
    NormalIdempotent(v);
    NormalWellFormed(v);
  }
}
