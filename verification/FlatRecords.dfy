/**
 Records of plain scalar fields around one detached object: their canonical size, and
 filling in their own identity.
 */
module FlatRecords {
  import opened Outcomes
  import opened Digits
  import opened Texts
  import opened JsonValues
  import opened JsonText
  import opened JsonRoundTrip
  import opened Canonical
  import opened Identity

  // ----- sizes of printed records -----

  function MemberSize(m: Member): nat {
    |EncodeAll(PrintMember(m))|
  }

  /** Sizes of the members from k on, a separator after each. */
  function SizeFrom(members: seq<Member>, k: nat): nat
    requires k <= |members|
    decreases |members| - k
  {
    if k == |members| then 0 else MemberSize(members[k]) + 1 + SizeFrom(members, k + 1)
  }

  lemma {:induction false} SizeFromTail(m: Member, members: seq<Member>, k: nat)
    requires k <= |members|
    ensures SizeFrom([m] + members, k + 1) == SizeFrom(members, k)
    decreases |members| - k
  {
    if k < |members| {
      SizeFromTail(m, members, k + 1);
    }
  }

  lemma {:induction false} InsertSize(m: Member, members: seq<Member>)
    ensures SizeFrom(InsertMember(m, members), 0) == MemberSize(m) + 1 + SizeFrom(members, 0)
  {
    if members != [] && Before(members[0].key, m.key) {
      InsertSize(m, members[1..]);
      SizeFromTail(members[0], members[1..], 0);
      SizeFromTail(members[0], InsertMember(m, members[1..]), 0);
      assert members == [members[0]] + members[1..];
    } else {
      SizeFromTail(m, members, 0);
    }
  }

  lemma {:induction false} SortSize(members: seq<Member>)
    ensures SizeFrom(SortMembers(members), 0) == SizeFrom(members, 0)
  {
    if members != [] {
      SortSize(members[1..]);
      InsertSize(members[0], SortMembers(members[1..]));
      SizeFromTail(members[0], members[1..], 0);
      assert members == [members[0]] + members[1..];
    }
  }

  lemma {:induction false} PrintedMembersSize(members: seq<Member>)
    requires members != []
    ensures |EncodeAll(PrintMembers(members))| + 1 == SizeFrom(members, 0)
  {
    if |members| > 1 {
      var rest := members[1..];
      var first := PrintMember(members[0]);
      PrintedMembersSize(rest);
      SizeFromTail(members[0], rest, 0);
      assert members == [members[0]] + rest;
      EncodeConcat(first, [COMMA]);
      EncodeConcat(first + [COMMA], PrintMembers(rest));
      EncodeAscii([COMMA]);
    } else {
      assert SizeFrom(members, 1) == 0;
    }
  }

  lemma PrintedObjectSize(members: seq<Member>)
    requires members != []
    ensures |EncodeAll(Print(Obj(members)))| == SizeFrom(members, 0) + 1
  {
    PrintedMembersSize(members);
    EncodeConcat([LBRACE], PrintMembers(members));
    EncodeConcat([LBRACE] + PrintMembers(members), [RBRACE]);
    EncodeAscii([LBRACE]);
    EncodeAscii([RBRACE]);
  }

  // ----- text that prints as itself -----

  predicate IsPlain(t: Text) {
    forall i :: 0 <= i < |t| ==> 32 <= t[i] < 127 && t[i] != QUOTE && t[i] != BACKSLASH
  }

  lemma {:induction false} EscapePlain(t: Text)
    requires IsPlain(t)
    ensures EscapeText(t) == t
  {
    if t != [] {
      EscapePlain(t[1..]);
      assert t == [t[0]] + t[1..];
    }
  }

  lemma PlainString(t: Text)
    requires IsPlain(t)
    ensures Utf8Encode(PrintString(t)) == Some(PrintString(t)) && |PrintString(t)| == |t| + 2
  {
    EscapePlain(t);
    EncodeAscii(PrintString(t));
  }

  /** Null, a truth value, or a string that prints as itself. */
  predicate IsPlainScalar(v: Json) {
    v.Null? || v.Bool? || (v.Str? && IsPlain(v.s))
  }

  function ScalarSize(v: Json): nat
    requires IsPlainScalar(v)
  {
    match v
    case Null => 4
    case Bool(b) => if b then 4 else 5
    case Str(s) => |s| + 2
  }

  lemma PlainScalar(v: Json)
    requires IsPlainScalar(v)
    ensures Utf8Encode(Print(v)) == Some(Print(v)) && |Print(v)| == ScalarSize(v)
  {
    if v.Str? {
      PlainString(v.s);
    } else {
      EncodeAscii(Print(v));
    }
  }

  lemma NoSurrogateConcat(a: Text, b: Text)
    requires !HasSurrogate(a) && !HasSurrogate(b)
    ensures !HasSurrogate(a + b)
  {
    forall i | 0 <= i < |a + b| ensures !IsSurrogate((a + b)[i]) {
      assert (a + b)[i] == if i < |a| then a[i] else b[i - |a|];
    }
  }

  lemma PrintedMember(m: Member)
    requires IsPlain(m.key) && !HasSurrogate(Print(m.value))
    ensures MemberSize(m) == |m.key| + 3 + |EncodeAll(Print(m.value))|
    ensures !HasSurrogate(PrintMember(m))
  {
    PlainString(m.key);
    EncodeConcat(PrintString(m.key), [COLON]);
    EncodeAscii([COLON]);
    EncodeConcat(PrintString(m.key) + [COLON], Print(m.value));
    NoSurrogateConcat(PrintString(m.key), [COLON]);
    NoSurrogateConcat(PrintString(m.key) + [COLON], Print(m.value));
  }

  lemma {:induction false} PrintedMembersClean(members: seq<Member>)
    requires forall m :: m in members ==> !HasSurrogate(PrintMember(m))
    ensures !HasSurrogate(PrintMembers(members))
  {
    if |members| > 1 {
      PrintedMembersClean(members[1..]);
      NoSurrogateConcat(PrintMember(members[0]), [COMMA]);
      NoSurrogateConcat(PrintMember(members[0]) + [COMMA], PrintMembers(members[1..]));
    }
  }

  // ----- a flat record around one detached object -----

  /** Plain scalar fields, and at p one detached object that has canonical bytes. */
  predicate FlatAround(record: seq<Member>, p: nat) {
    && DistinctKeys(record) && p < |record|
    && (forall i :: 0 <= i < |record| ==> IsPlain(record[i].key))
    && (forall i :: 0 <= i < |record| && i != p ==> IsPlainScalar(record[i].value))
    && record[p].value.Obj? && Detached(record[p].value.members)
    && EncodableInside(record[p].value)
  }

  /** Nothing inside v keeps it from being printed; only its depth and node count may. */
  predicate EncodableInside(v: Json) {
    !HasFloat(v) && !HasHugeInt(v) && !HasSurrogate(Print(Normal(v)))
  }

  lemma {:induction false} FlatMeasures(record: seq<Member>, p: nat)
    requires forall i :: 0 <= i < |record| && i != p ==> IsPlainScalar(record[i].value)
    ensures DepthMembers(record) == if p < |record| then 1 + Depth(record[p].value) else if record == [] then 0 else 1
    ensures NodesMembers(record) == if p < |record| then |record| - 1 + Nodes(record[p].value) else |record|
  {
    if record != [] {
      if p > 0 {
        FlatMeasures(record[1..], p - 1);
      } else {
        FlatMeasures(record[1..], |record|);
      }
    }
  }

  lemma FlatInside(record: seq<Member>, p: nat)
    requires FlatAround(record, p)
    ensures !HasFloat(Obj(record)) && !HasHugeInt(Obj(record))
  {
    forall i | 0 <= i < |record| ensures !HasFloat(record[i].value) && !HasHugeInt(record[i].value) {
      assert i != p ==> IsPlainScalar(record[i].value);
    }
  }

  lemma FlatNormal(record: seq<Member>, p: nat)
    requires FlatAround(record, p)
    ensures WellFormed(Obj(record)) && Normal(Obj(record)) == Obj(SortMembers(record))
  {
    assert NormalMembers(record) == record;
  }

  lemma FlatPrints(record: seq<Member>, p: nat)
    requires FlatAround(record, p)
    ensures !HasSurrogate(Print(Obj(SortMembers(record))))
  {
    var sorted := SortMembers(record);
    SortKeepsContents(record);
    forall m | m in sorted ensures !HasSurrogate(PrintMember(m)) {
      assert m in multiset(record);
      var i :| 0 <= i < |record| && record[i] == m;
      if i != p {
        PlainScalar(m.value);
      }
      PrintedMember(m);
    }
    PrintedMembersClean(sorted);
    NoSurrogateConcat([LBRACE], PrintMembers(sorted));
    NoSurrogateConcat([LBRACE] + PrintMembers(sorted), [RBRACE]);
  }

  /** Its canonical bytes exist exactly when its depth, nodes and summed size are within bounds. */
  lemma FlatCanonical(record: seq<Member>, p: nat, maximumBytes: int)
    requires FlatAround(record, p) && maximumBytes >= 1
    ensures var r := CanonicalJsonBytes(Obj(record), maximumBytes);
            && (r.Ok? <==> 1 + Depth(record[p].value) <= MAXIMUM_CANONICAL_DEPTH
                           && |record| + Nodes(record[p].value) <= MAXIMUM_CANONICAL_NODES
                           && SizeFrom(record, 0) + 1 <= maximumBytes)
            && (r.Ok? ==> |r.value| == SizeFrom(record, 0) + 1)
  {
    FlatMeasures(record, p);
    FlatInside(record, p);
    AdmitExactly(Obj(record), 0, 0);
    FlatEncoded(record, p);
  }

  lemma FlatEncoded(record: seq<Member>, p: nat)
    requires FlatAround(record, p)
    ensures EncodeCanonical(Obj(record)).Some? && |EncodeCanonical(Obj(record)).value| == SizeFrom(record, 0) + 1
  {
    FlatInside(record, p);
    FlatNormal(record, p);
    FlatPrints(record, p);
    SortKeepsContents(record);
    PrintedObjectSize(SortMembers(record));
    SortSize(record);
  }

  lemma ScalarMemberSize(m: Member)
    requires IsPlain(m.key) && IsPlainScalar(m.value)
    ensures MemberSize(m) == |m.key| + 3 + ScalarSize(m.value)
  {
    PlainScalar(m.value);
    PrintedMember(m);
  }

  // ----- filling in a record's own identity -----

  function Fill(fields: seq<Member>, idKey: Text, id: Text): seq<Member> {
    fields + [Member(idKey, Str(id))]
  }

  predicate Fillable(fields: seq<Member>, p: nat, idKey: Text) {
    FlatAround(fields, p) && IsPlain(idKey) && forall i :: 0 <= i < |fields| ==> fields[i].key != idKey
  }

  lemma FilledFlat(fields: seq<Member>, p: nat, idKey: Text, id: Text)
    requires Fillable(fields, p, idKey) && IsPlain(id)
    ensures FlatAround(Fill(fields, idKey, id), p) && Fill(fields, idKey, id)[p] == fields[p]
  {
  }

  lemma {:induction false} SizeFromAppend(members: seq<Member>, m: Member, k: nat)
    requires k <= |members|
    ensures SizeFrom(members + [m], k) == SizeFrom(members, k) + MemberSize(m) + 1
    decreases |members| - k
  {
    if k < |members| {
      SizeFromAppend(members, m, k + 1);
    } else {
      assert SizeFrom(members + [m], k + 1) == 0;
    }
  }

  lemma FilledCanonical(fields: seq<Member>, p: nat, idKey: Text, id: Text, maximumBytes: int)
    requires Fillable(fields, p, idKey) && IsPlain(id) && maximumBytes >= 1
    ensures var r := CanonicalJsonBytes(Obj(Fill(fields, idKey, id)), maximumBytes);
            && (r.Ok? <==> 1 + Depth(fields[p].value) <= MAXIMUM_CANONICAL_DEPTH
                           && |fields| + 1 + Nodes(fields[p].value) <= MAXIMUM_CANONICAL_NODES
                           && SizeFrom(fields, 0) + |idKey| + |id| + 7 <= maximumBytes)
            && (r.Ok? ==> |r.value| == SizeFrom(fields, 0) + |idKey| + |id| + 7)
  {
    FilledFlat(fields, p, idKey, id);
    FlatCanonical(Fill(fields, idKey, id), p, maximumBytes);
    SizeFromAppend(fields, Member(idKey, Str(id)), 0);
    ScalarMemberSize(Member(idKey, Str(id)));
  }

  lemma {:induction false} WithoutFilled(fields: seq<Member>, idKey: Text, id: Text)
    requires forall i :: 0 <= i < |fields| ==> fields[i].key != idKey
    ensures Without(Fill(fields, idKey, id), idKey) == fields
  {
    if fields == [] {
      assert Fill(fields, idKey, id) == [Member(idKey, Str(id))];
    } else {
      WithoutFilled(fields[1..], idKey, id);
      assert Fill(fields, idKey, id)[1..] == Fill(fields[1..], idKey, id);
    }
  }

  lemma {:induction false} PutFilled(fields: seq<Member>, idKey: Text, previous: Text, id: Text)
    requires forall i :: 0 <= i < |fields| ==> fields[i].key != idKey
    ensures Put(Fill(fields, idKey, previous), Member(idKey, Str(id))) == Fill(fields, idKey, id)
  {
    if fields == [] {
      assert Fill(fields, idKey, previous) == [Member(idKey, Str(previous))];
    } else {
      PutFilled(fields[1..], idKey, previous, id);
      assert Fill(fields, idKey, previous)[1..] == Fill(fields[1..], idKey, previous);
    }
  }

  /** Every field survives detaching. */
  lemma FilledGet(fields: seq<Member>, p: nat, idKey: Text, id: Text, k: nat)
    requires Fillable(fields, p, idKey) && IsPlain(id) && k <= |fields|
    ensures var e := Fill(fields, idKey, id); Get(Normal(Obj(e)).members, e[k].key) == Some(e[k].value)
  {
    var e := Fill(fields, idKey, id);
    FilledFlat(fields, p, idKey, id);
    GetAt(e, k);
    GetNormal(e, e[k].key);
    assert k != p ==> IsPlainScalar(e[k].value);
  }

  /** A record filled with the identity of its other fields carries its own identity, detached or not. */
  lemma FilledIdentifiesItself(h: Hash, fields: seq<Member>, p: nat, idKey: Text, id: Text, domain: Bytes,
                               maximumBytes: int)
    requires Fillable(fields, p, idKey) && IsPlain(id)
    requires DomainSeparated(h, domain, Obj(fields), maximumBytes) == Ok(id)
    ensures SelfIdentified(h, Normal(Obj(Fill(fields, idKey, id))).members, idKey, domain, maximumBytes)
  {
    var e := Fill(fields, idKey, id);
    FilledFlat(fields, p, idKey, id);
    FlatNormal(e, p);
    WithoutFilled(fields, idKey, id);
    IdentityOfDetached(h, e, idKey, domain, maximumBytes);
    FilledGet(fields, p, idKey, id, |fields|);
  }

  // ----- the keys of a record -----

  function Keys(members: seq<Member>): set<Text> {
    set m | m in members :: m.key
  }

  lemma NormalKeys(members: seq<Member>)
    requires DistinctKeys(members)
    ensures Keys(Normal(Obj(members)).members) == Keys(members)
  {
    NormalObject(members);
    var sorted, normal := Normal(Obj(members)).members, NormalMembers(members);
    forall k ensures k in Keys(sorted) <==> k in Keys(members) {
      if k in Keys(sorted) {
        var m :| m in sorted && m.key == k;
        assert m in multiset(normal);
        var j :| 0 <= j < |normal| && normal[j] == m;
        assert members[j].key == k;
      }
      if k in Keys(members) {
        var m :| m in members && m.key == k;
        var j :| 0 <= j < |members| && members[j] == m;
        assert normal[j] in multiset(sorted);
        assert normal[j].key == k;
      }
    }
  }
}
