/**
 Native JSON values: what a Python object tree of dict, list, str, int, bool and None is
 once identity and sharing are forgotten.
 */
module JsonValues {
  import opened Outcomes
  import opened Texts

  datatype Member = Member(key: Text, value: Json)

  /** `Float` is a binary floating-point value; its digits never reach an identity. */
  datatype Json =
    | Null
    | Bool(b: bool)
    | Int(n: int)
    | Str(s: Text)
    | Float(literal: Text)
    | Arr(items: seq<Json>)
    | Obj(members: seq<Member>)

  // ----- objects are dictionaries: keys are distinct -----

  predicate DistinctKeys(members: seq<Member>) {
    forall i, j :: 0 <= i < j < |members| ==> members[i].key != members[j].key
  }

  predicate WellFormed(v: Json) {
    match v
    case Arr(items) => forall i :: 0 <= i < |items| ==> WellFormed(items[i])
    case Obj(members) =>
      DistinctKeys(members) && forall i :: 0 <= i < |members| ==> WellFormed(members[i].value)
    case _ => true
  }

  // ----- Python dictionary equality: insertion order does not matter -----

  /** Equal as typed values, with the order of object members ignored. */
  predicate SameValue(v: Json, w: Json)
    decreases v
  {
    match v
    case Arr(items) =>
      w.Arr? && |items| == |w.items|
      && forall i :: 0 <= i < |items| ==> SameValue(items[i], w.items[i])
    case Obj(members) =>
      w.Obj? && |members| == |w.members|
      && forall i :: 0 <= i < |members| ==> HasTwin(members[i], w.members)
    case _ => v == w
  }

  predicate HasTwin(m: Member, others: seq<Member>)
    decreases m
  {
    exists j :: 0 <= j < |others| && m.key == others[j].key && SameValue(m.value, others[j].value)
  }

  // ----- key order -----

  predicate SortedMembers(members: seq<Member>) {
    forall i, j :: 0 <= i < j < |members| ==> Before(members[i].key, members[j].key)
  }

  function InsertMember(m: Member, members: seq<Member>): (r: seq<Member>) {
    if members == [] then [m]
    else if Before(members[0].key, m.key) then [members[0]] + InsertMember(m, members[1..])
    else [m] + members
  }

  function SortMembers(members: seq<Member>): seq<Member> {
    if members == [] then [] else InsertMember(members[0], SortMembers(members[1..]))
  }

  lemma {:induction false} InsertKeepsContents(m: Member, members: seq<Member>)
    ensures multiset(InsertMember(m, members)) == multiset(members) + multiset{m}
  {
    if members != [] {
      assert members == [members[0]] + members[1..];
      InsertKeepsContents(m, members[1..]);
    }
  }

  lemma {:induction false} SortKeepsContents(members: seq<Member>)
    ensures multiset(SortMembers(members)) == multiset(members)
    ensures |SortMembers(members)| == |members|
  {
    if members != [] {
      SortKeepsContents(members[1..]);
      InsertKeepsContents(members[0], SortMembers(members[1..]));
      assert members == [members[0]] + members[1..];
      assert |multiset(SortMembers(members))| == |SortMembers(members)|;
    }
  }

  lemma {:induction false} InsertSorts(m: Member, members: seq<Member>)
    requires SortedMembers(members)
    requires forall i :: 0 <= i < |members| ==> members[i].key != m.key
    ensures SortedMembers(InsertMember(m, members))
  {
    if members != [] {
      var rest := members[1..];
      if Before(members[0].key, m.key) {
        InsertSorts(m, rest);
        InsertKeepsContents(m, rest);
        var tail := InsertMember(m, rest);
        forall j | 0 <= j < |tail| ensures Before(members[0].key, tail[j].key) {
          assert tail[j] in multiset(tail);
          assert tail[j] == m || tail[j] in rest;
        }
      } else {
        BeforeTotal(members[0].key, m.key);
        forall j | 0 <= j < |members| ensures Before(m.key, members[j].key) {
          if j > 0 {
            BeforeTransitive(m.key, members[0].key, members[j].key);
          }
        }
      }
    }
  }

  lemma {:induction false} SortSorts(members: seq<Member>)
    requires DistinctKeys(members)
    ensures SortedMembers(SortMembers(members))
  {
    if members != [] {
      var rest := members[1..];
      SortSorts(rest);
      SortKeepsContents(rest);
      forall i | 0 <= i < |SortMembers(rest)| ensures SortMembers(rest)[i].key != members[0].key {
        assert SortMembers(rest)[i] in multiset(rest);
      }
      InsertSorts(members[0], SortMembers(rest));
    }
  }

  lemma SortedDistinct(members: seq<Member>)
    requires SortedMembers(members)
    ensures DistinctKeys(members)
  {
    forall i, j | 0 <= i < j < |members| ensures members[i].key != members[j].key {
      BeforeStrict(members[i].key, members[j].key);
    }
  }

  lemma SortedPositions(members: seq<Member>, i: nat, j: nat)
    requires SortedMembers(members) && i < |members| && j < |members|
    ensures Before(members[i].key, members[j].key) <==> i < j
  {
    if j <= i {
      if i == j {
        if Before(members[i].key, members[j].key) {
          BeforeStrict(members[i].key, members[j].key);
        }
      } else {
        BeforeStrict(members[j].key, members[i].key);
      }
    }
  }

  /** Where a sorted list sits inside another: never left of its own position... */
  lemma {:induction false} PositionAtLeast(a: seq<Member>, b: seq<Member>, i: nat, k: nat)
    requires SortedMembers(a) && SortedMembers(b)
    requires forall x :: 0 <= x < |a| ==> a[x] in b
    requires i < |a| && k < |b| && b[k] == a[i]
    ensures i <= k
    decreases i
  {
    if i > 0 {
      var h :| 0 <= h < |b| && b[h] == a[i - 1];
      SortedPositions(b, h, k);
      PositionAtLeast(a, b, i - 1, h);
    }
  }

  /** ... and, when the lists are equally long, never right of it. */
  lemma {:induction false} PositionAtMost(a: seq<Member>, b: seq<Member>, i: nat, k: nat)
    requires SortedMembers(a) && SortedMembers(b) && |a| == |b|
    requires forall x :: 0 <= x < |a| ==> a[x] in b
    requires i < |a| && k < |b| && b[k] == a[i]
    ensures k <= i
    decreases |a| - i
  {
    if i < |a| - 1 {
      var h :| 0 <= h < |b| && b[h] == a[i + 1];
      SortedPositions(b, k, h);
      PositionAtMost(a, b, i + 1, h);
    }
  }

  /** Two strictly sorted member lists with the same members are the same list. */
  lemma SortedUnique(a: seq<Member>, b: seq<Member>)
    requires SortedMembers(a) && SortedMembers(b) && |a| == |b|
    requires forall i :: 0 <= i < |a| ==> a[i] in b
    ensures a == b
  {
    forall i | 0 <= i < |a| ensures a[i] == b[i] {
      var k :| 0 <= k < |b| && b[k] == a[i];
      PositionAtLeast(a, b, i, k);
      PositionAtMost(a, b, i, k);
    }
  }

  // ----- the sorted-key normal form -----

  /** Every object's members in key order: what reading back the canonical text yields. */
  function Normal(v: Json): Json {
    match v
    case Arr(items) => Arr(NormalItems(items))
    case Obj(members) => Obj(SortMembers(NormalMembers(members)))
    case _ => v
  }

  function NormalItems(items: seq<Json>): (r: seq<Json>)
    ensures |r| == |items|
    ensures forall i :: 0 <= i < |items| ==> r[i] == Normal(items[i])
  {
    if items == [] then [] else [Normal(items[0])] + NormalItems(items[1..])
  }

  function NormalMembers(members: seq<Member>): (r: seq<Member>)
    ensures |r| == |members|
    ensures forall i :: 0 <= i < |members| ==>
              r[i] == Member(members[i].key, Normal(members[i].value))
  {
    if members == [] then []
    else [Member(members[0].key, Normal(members[0].value))] + NormalMembers(members[1..])
  }

  lemma NormalObject(members: seq<Member>)
    requires DistinctKeys(members)
    ensures SortedMembers(Normal(Obj(members)).members)
    ensures |Normal(Obj(members)).members| == |members|
    ensures multiset(Normal(Obj(members)).members) == multiset(NormalMembers(members))
  {
    SortSorts(NormalMembers(members));
    SortKeepsContents(NormalMembers(members));
  }

  /** Equality up to member order is exactly equality of normal forms. */
  lemma {:induction false} SameValueIsSameNormal(v: Json, w: Json)
    requires WellFormed(v) && WellFormed(w)
    ensures SameValue(v, w) <==> Normal(v) == Normal(w)
    decreases v
  {
    match v
    case Arr(items) =>
      if w.Arr? && |items| == |w.items| {
        forall i | 0 <= i < |items|
          ensures SameValue(items[i], w.items[i]) <==> NormalItems(items)[i] == NormalItems(w.items)[i]
        {
          SameValueIsSameNormal(items[i], w.items[i]);
        }
      } else if w.Arr? {
        assert |NormalItems(items)| != |NormalItems(w.items)|;
      }
    case Obj(members) =>
      if w.Obj? {
        forall i, j | 0 <= i < |members| && 0 <= j < |w.members|
          ensures SameValue(members[i].value, w.members[j].value)
             <==> Normal(members[i].value) == Normal(w.members[j].value)
        {
          SameValueIsSameNormal(members[i].value, w.members[j].value);
        }
        if SameValue(v, w) {
          SameObjectSameNormal(members, w.members);
        }
        if Normal(v) == Normal(w) {
          SameNormalSameObject(members, w.members);
        }
      }
    case _ =>
  }

  /** Every member of a has a member of b with the same key and the same normal form. */
  predicate MembersMatch(a: seq<Member>, b: seq<Member>) {
    forall i :: 0 <= i < |a| ==> NormalMembers(a)[i] in NormalMembers(b)
  }

  lemma SameObjectSameNormal(a: seq<Member>, b: seq<Member>)
    requires DistinctKeys(a) && DistinctKeys(b)
    requires SameValue(Obj(a), Obj(b))
    requires forall i, j :: 0 <= i < |a| && 0 <= j < |b| && SameValue(a[i].value, b[j].value) ==>
               Normal(a[i].value) == Normal(b[j].value)
    ensures Normal(Obj(a)) == Normal(Obj(b))
  {
    NormalObject(a);
    NormalObject(b);
    assert MembersMatch(a, b) by {
      forall i | 0 <= i < |a| ensures NormalMembers(a)[i] in NormalMembers(b) {
        assert HasTwin(a[i], b);
        var j :| 0 <= j < |b| && a[i].key == b[j].key && SameValue(a[i].value, b[j].value);
        assert NormalMembers(b)[j] == NormalMembers(a)[i];
      }
    }
    var sa, sb := Normal(Obj(a)).members, Normal(Obj(b)).members;
    forall k | 0 <= k < |sa| ensures sa[k] in sb {
      assert sa[k] in multiset(NormalMembers(a));
      assert sa[k] in NormalMembers(b);
      assert sa[k] in multiset(sb);
    }
    SortedUnique(sa, sb);
  }

  lemma SameNormalSameObject(a: seq<Member>, b: seq<Member>)
    requires DistinctKeys(a) && DistinctKeys(b)
    requires Normal(Obj(a)) == Normal(Obj(b))
    requires forall i, j :: 0 <= i < |a| && 0 <= j < |b| && Normal(a[i].value) == Normal(b[j].value) ==>
               SameValue(a[i].value, b[j].value)
    ensures SameValue(Obj(a), Obj(b))
  {
    NormalObject(a);
    NormalObject(b);
    forall i | 0 <= i < |a| ensures HasTwin(a[i], b) {
      assert NormalMembers(a)[i] in multiset(NormalMembers(b));
      var j :| 0 <= j < |b| && NormalMembers(b)[j] == NormalMembers(a)[i];
      assert a[i].key == b[j].key;
    }
  }

  lemma {:induction false} NormalWellFormed(v: Json)
    requires WellFormed(v)
    ensures WellFormed(Normal(v))
    decreases v
  {
    match v
    case Arr(items) =>
      forall i | 0 <= i < |items| ensures WellFormed(Normal(items[i])) {
        NormalWellFormed(items[i]);
      }
    case Obj(members) =>
      NormalObject(members);
      var sorted := Normal(v).members;
      SortedDistinct(sorted);
      forall k | 0 <= k < |sorted| ensures WellFormed(sorted[k].value) {
        assert sorted[k] in multiset(NormalMembers(members));
        var i :| 0 <= i < |members| && NormalMembers(members)[i] == sorted[k];
        NormalWellFormed(members[i].value);
      }
    case _ =>
  }

  // ----- measures -----

  function MaxNat(a: nat, b: nat): nat {
    if a < b then b else a
  }

  /** How many containers enclose the deepest node. */
  function Depth(v: Json): nat {
    match v
    case Arr(items) => DepthItems(items)
    case Obj(members) => DepthMembers(members)
    case _ => 0
  }

  function DepthItems(items: seq<Json>): nat {
    if items == [] then 0 else MaxNat(1 + Depth(items[0]), DepthItems(items[1..]))
  }

  function DepthMembers(members: seq<Member>): nat {
    if members == [] then 0 else MaxNat(1 + Depth(members[0].value), DepthMembers(members[1..]))
  }

  /** Values in the tree, the root included and object keys not. */
  function Nodes(v: Json): (n: nat)
    ensures n >= 1
  {
    match v
    case Arr(items) => 1 + NodesItems(items)
    case Obj(members) => 1 + NodesMembers(members)
    case _ => 1
  }

  function NodesItems(items: seq<Json>): nat {
    if items == [] then 0 else Nodes(items[0]) + NodesItems(items[1..])
  }

  function NodesMembers(members: seq<Member>): nat {
    if members == [] then 0 else Nodes(members[0].value) + NodesMembers(members[1..])
  }

  predicate HasFloat(v: Json) {
    match v
    case Float(_) => true
    case Arr(items) => exists i :: 0 <= i < |items| && HasFloat(items[i])
    case Obj(members) => exists i :: 0 <= i < |members| && HasFloat(members[i].value)
    case _ => false
  }

}
