/**
 Canonical sizes of JSON values made of null, truth values and text that prints as itself: what
 an object or an array takes, from what its parts take.
 */
module PlainJson {
  import opened Outcomes
  import opened Digits
  import opened Texts
  import opened JsonValues
  import opened JsonText
  import opened JsonRoundTrip
  import opened Canonical
  import opened FlatRecords

  predicate IsPlainJson(v: Json) {
    match v
    case Str(s) => IsPlain(s)
    case Arr(items) => forall i :: 0 <= i < |items| ==> IsPlainJson(items[i])
    case Obj(members) => forall i :: 0 <= i < |members| ==> IsPlain(members[i].key) && IsPlainJson(members[i].value)
    case Int(_) => false
    case Float(_) => false
    case _ => true
  }

  predicate IsAscii(t: Text) {
    forall i :: 0 <= i < |t| ==> t[i] < 0x80
  }

  lemma AsciiConcat(a: Text, b: Text)
    requires IsAscii(a) && IsAscii(b)
    ensures IsAscii(a + b)
  {
  }

  lemma {:induction false} PrintedAscii(v: Json)
    requires IsPlainJson(v)
    ensures IsAscii(Print(v))
    decreases v
  {
    match v
    case Str(s) => EscapePlain(s);
    case Arr(items) => PrintedItemsAscii(items);
    case Obj(members) => PrintedMembersAscii(members);
    case _ =>
  }

  lemma {:induction false} PrintedItemsAscii(items: seq<Json>)
    requires forall i :: 0 <= i < |items| ==> IsPlainJson(items[i])
    ensures IsAscii(PrintItems(items))
    decreases items
  {
    if items != [] {
      PrintedAscii(items[0]);
      PrintedItemsAscii(items[1..]);
    }
  }

  lemma {:induction false} PrintedMembersAscii(members: seq<Member>)
    requires forall i :: 0 <= i < |members| ==> IsPlain(members[i].key) && IsPlainJson(members[i].value)
    ensures IsAscii(PrintMembers(members))
    decreases members
  {
    if members != [] {
      EscapePlain(members[0].key);
      PrintedAscii(members[0].value);
      PrintedMembersAscii(members[1..]);
      AsciiConcat(PrintString(members[0].key) + [COLON], Print(members[0].value));
      AsciiConcat(PrintMember(members[0]), [COMMA]);
    }
  }

  lemma {:induction false} NormalPlain(v: Json)
    requires IsPlainJson(v)
    ensures IsPlainJson(Normal(v))
  {
    match v
    case Arr(items) =>
      forall i | 0 <= i < |items| ensures IsPlainJson(NormalItems(items)[i]) {
        NormalPlain(items[i]);
      }
    case Obj(members) =>
      var sorted, normal := Normal(v).members, NormalMembers(members);
      SortKeepsContents(normal);
      forall k | 0 <= k < |sorted| ensures IsPlain(sorted[k].key) && IsPlainJson(sorted[k].value) {
        assert sorted[k] in multiset(normal);
        var i :| 0 <= i < |members| && normal[i] == sorted[k];
        NormalPlain(members[i].value);
      }
    case _ =>
  }

  lemma {:induction false} PlainHasNone(v: Json)
    requires IsPlainJson(v)
    ensures !HasFloat(v) && !HasHugeInt(v)
  {
    match v
    case Arr(items) =>
      forall i | 0 <= i < |items| ensures !HasFloat(items[i]) && !HasHugeInt(items[i]) {
        PlainHasNone(items[i]);
      }
    case Obj(members) =>
      forall i | 0 <= i < |members| ensures !HasFloat(members[i].value) && !HasHugeInt(members[i].value) {
        PlainHasNone(members[i].value);
      }
    case _ =>
  }

  /** Bytes of the canonical form. */
  function Length(v: Json): nat {
    |EncodeAll(Print(Normal(v)))|
  }

  /** Of plain values only depth, nodes and bytes are left to check. */
  lemma PlainCanonical(v: Json, maximumBytes: int)
    requires IsPlainJson(v) && maximumBytes >= 1
    ensures var r := CanonicalJsonBytes(v, maximumBytes);
            && (r.Ok? <==> Depth(v) <= MAXIMUM_CANONICAL_DEPTH && Nodes(v) <= MAXIMUM_CANONICAL_NODES
                           && Length(v) <= maximumBytes)
            && (r.Ok? ==> |r.value| == Length(v))
  {
    PlainHasNone(v);
    NormalPlain(v);
    PrintedAscii(Normal(v));
    EncodeAscii(Print(Normal(v)));
    AdmitExactly(v, 0, 0);
  }

  lemma TextLength(s: Text)
    requires IsPlain(s)
    ensures Length(Str(s)) == |s| + 2
  {
    PlainString(s);
  }

  // ----- objects -----

  predicate PlainWord(s: string) {
    forall i :: 0 <= i < |s| ==> ' ' <= s[i] <= '~' && s[i] != '"' && s[i] != '\\'
  }

  /** Text that prints as itself. */
  type PlainText = s: string | PlainWord(s) witness ""

  function Joined(a: PlainText, b: PlainText): PlainText {
    a + b
  }

  function Word(s: PlainText): Json {
    Str(Ascii(s))
  }

  lemma WordMeasures(s: PlainText)
    ensures IsPlainJson(Word(s)) && Length(Word(s)) == |s| + 2 && Nodes(Word(s)) == 1 && Depth(Word(s)) == 0
  {
    TextLength(Ascii(s));
  }

  datatype Field = Field(name: PlainText, value: Json)

  function Members(fields: seq<Field>): (r: seq<Member>)
    ensures |r| == |fields| && forall i :: 0 <= i < |r| ==> r[i] == Member(Ascii(fields[i].name), fields[i].value)
  {
    seq(|fields|, i requires 0 <= i < |fields| => Member(Ascii(fields[i].name), fields[i].value))
  }

  function Object(fields: seq<Field>): Json {
    Obj(Members(fields))
  }

  predicate PlainFields(fields: seq<Field>, depth: nat) {
    forall i :: 0 <= i < |fields| ==>
      IsPlainJson(fields[i].value) && Depth(fields[i].value) <= depth
  }

  /** What the fields from k on take: quotes, colon and a separator each. */
  function FieldBytes(fields: seq<Field>, k: nat): nat
    requires k <= |fields|
    decreases |fields| - k
  {
    if k == |fields| then 0 else |fields[k].name| + 4 + Length(fields[k].value) + FieldBytes(fields, k + 1)
  }

  function FieldNodes(fields: seq<Field>, k: nat): nat
    requires k <= |fields|
    decreases |fields| - k
  {
    if k == |fields| then 0 else Nodes(fields[k].value) + FieldNodes(fields, k + 1)
  }

  function FieldSize(f: Field): nat {
    |f.name| + 4 + Length(f.value)
  }

  lemma OneField(fields: seq<Field>, k: nat)
    requires k + 1 <= |fields|
    ensures FieldBytes(fields, k) == FieldSize(fields[k]) + FieldBytes(fields, k + 1)
    ensures FieldNodes(fields, k) == Nodes(fields[k].value) + FieldNodes(fields, k + 1)
  {
  }

  lemma NormalMemberSize(f: Field)
    requires IsPlainJson(f.value)
    ensures MemberSize(Member(Ascii(f.name), Normal(f.value))) == |f.name| + 3 + Length(f.value)
  {
    NormalPlain(f.value);
    PrintedAscii(Normal(f.value));
    EncodeAscii(Print(Normal(f.value)));
    PrintedMember(Member(Ascii(f.name), Normal(f.value)));
  }

  lemma {:induction false} SizesAgree(members: seq<Member>, fields: seq<Field>, k: nat)
    requires |members| == |fields| && k <= |fields|
    requires forall i :: 0 <= i < |fields| ==> MemberSize(members[i]) + 1 == FieldSize(fields[i])
    ensures SizeFrom(members, k) == FieldBytes(fields, k)
    decreases |fields| - k
  {
    if k < |fields| {
      SizesAgree(members, fields, k + 1);
      OneField(fields, k);
      assert MemberSize(members[k]) + 1 == FieldSize(fields[k]);
    }
  }

  lemma MembersBytes(fields: seq<Field>, depth: nat)
    requires PlainFields(fields, depth)
    ensures SizeFrom(NormalMembers(Members(fields)), 0) == FieldBytes(fields, 0)
  {
    var normal := NormalMembers(Members(fields));
    forall i | 0 <= i < |fields| ensures MemberSize(normal[i]) + 1 == FieldSize(fields[i]) {
      NormalMemberSize(fields[i]);
    }
    SizesAgree(normal, fields, 0);
  }

  lemma {:induction false} MembersMeasures(fields: seq<Field>, depth: nat, k: nat)
    requires PlainFields(fields, depth) && k <= |fields|
    ensures DepthMembers(Members(fields)[k..]) <= depth + 1
    ensures NodesMembers(Members(fields)[k..]) == FieldNodes(fields, k)
    decreases |fields| - k
  {
    if k < |fields| {
      MembersMeasures(fields, depth, k + 1);
      assert Members(fields)[k..][1..] == Members(fields)[k + 1..];
    }
  }

  lemma ObjectMeasures(fields: seq<Field>, depth: nat)
    requires fields != [] && PlainFields(fields, depth)
    ensures IsPlainJson(Object(fields)) && Depth(Object(fields)) <= depth + 1
    ensures Nodes(Object(fields)) == 1 + FieldNodes(fields, 0)
    ensures Length(Object(fields)) == 1 + FieldBytes(fields, 0)
  {
    MembersMeasures(fields, depth, 0);
    assert Members(fields)[0..] == Members(fields);
    ObjectBytes(fields, depth);
  }

  lemma ObjectBytes(fields: seq<Field>, depth: nat)
    requires fields != [] && PlainFields(fields, depth)
    ensures Length(Object(fields)) == 1 + FieldBytes(fields, 0)
  {
    var members := Members(fields);
    MembersBytes(fields, depth);
    SortKeepsContents(NormalMembers(members));
    SortSize(NormalMembers(members));
    PrintedObjectSize(SortMembers(NormalMembers(members)));
  }

  // ----- objects by sizes alone -----

  /** A plain value of this many bytes, and of no more nodes and levels. */
  predicate Takes(j: Json, bytes: nat, nodes: nat, depth: nat) {
    IsPlainJson(j) && Length(j) == bytes && Nodes(j) <= nodes && Depth(j) <= depth
  }

  /** What a field takes: the length of its name, the bytes and the nodes of its value. */
  datatype Size = Size(name: nat, bytes: nat, nodes: nat)

  /** How a value's size is told; sums of sizes need not know. */
  type Sizer = (Json, nat, nat, nat) -> bool

  predicate SizedFields(takes: Sizer, fields: seq<Field>, sizes: seq<Size>, depth: nat) {
    |fields| == |sizes| && forall i :: 0 <= i < |fields| ==> SizedField(takes, fields[i], sizes[i], depth)
  }

  predicate SizedField(takes: Sizer, f: Field, z: Size, depth: nat) {
    |f.name| == z.name && takes(f.value, z.bytes, z.nodes, depth)
  }

  function SumBytes(sizes: seq<Size>): nat {
    if sizes == [] then 0 else sizes[0].name + 4 + sizes[0].bytes + SumBytes(sizes[1..])
  }

  function SumNodes(sizes: seq<Size>): nat {
    if sizes == [] then 0 else sizes[0].nodes + SumNodes(sizes[1..])
  }

  lemma {:induction false} SumsBound(fields: seq<Field>, sizes: seq<Size>, depth: nat, k: nat)
    requires SizedFields(Takes, fields, sizes, depth) && k <= |fields|
    ensures FieldBytes(fields, k) == SumBytes(sizes[k..]) && FieldNodes(fields, k) <= SumNodes(sizes[k..])
    decreases |fields| - k
  {
    if k < |fields| {
      SumsBound(fields, sizes, depth, k + 1);
      assert SizedField(Takes, fields[k], sizes[k], depth);
      assert sizes[k..][1..] == sizes[k + 1..];
    }
  }

  /** An object of fields of known sizes. */
  lemma ObjectTakes(fields: seq<Field>, sizes: seq<Size>, depth: nat)
    requires fields != [] && SizedFields(Takes, fields, sizes, depth)
    ensures Takes(Object(fields), 1 + SumBytes(sizes), 1 + SumNodes(sizes), depth + 1)
  {
    forall i | 0 <= i < |fields| ensures IsPlainJson(fields[i].value) && Depth(fields[i].value) <= depth {
      assert SizedField(Takes, fields[i], sizes[i], depth);
    }
    ObjectMeasures(fields, depth);
    SumsBound(fields, sizes, depth, 0);
    assert sizes[0..] == sizes;
  }

  lemma SizedConcat(takes: Sizer, a: seq<Field>, b: seq<Field>, y: seq<Size>, z: seq<Size>, depth: nat)
    requires SizedFields(takes, a, y, depth) && SizedFields(takes, b, z, depth)
    ensures SizedFields(takes, a + b, y + z, depth)
  {
  }

  lemma FourSized(takes: Sizer, a: Field, b: Field, c: Field, d: Field, w: Size, x: Size, y: Size, z: Size, depth: nat)
    requires SizedField(takes, a, w, depth) && SizedField(takes, b, x, depth)
    requires SizedField(takes, c, y, depth) && SizedField(takes, d, z, depth)
    ensures SizedFields(takes, [a, b, c, d], [w, x, y, z], depth)
  {
  }

  lemma ThreeSized(takes: Sizer, a: Field, b: Field, c: Field, x: Size, y: Size, z: Size, depth: nat)
    requires SizedField(takes, a, x, depth) && SizedField(takes, b, y, depth) && SizedField(takes, c, z, depth)
    ensures SizedFields(takes, [a, b, c], [x, y, z], depth)
    ensures SizedFields(takes, [a, b], [x, y], depth) && SizedFields(takes, [a], [x], depth)
  {
  }

  lemma SumCons(z: Size, rest: seq<Size>)
    ensures SumBytes([z] + rest) == z.name + 4 + z.bytes + SumBytes(rest)
    ensures SumNodes([z] + rest) == z.nodes + SumNodes(rest)
  {
    assert ([z] + rest)[1..] == rest;
  }

  /** Four sizes at a time. */
  lemma FourSizes(a: Size, b: Size, c: Size, d: Size, rest: seq<Size>)
    ensures SumBytes([a, b, c, d] + rest)
            == a.name + b.name + c.name + d.name + 16 + a.bytes + b.bytes + c.bytes + d.bytes
                                             + SumBytes(rest)
    ensures SumNodes([a, b, c, d] + rest) == a.nodes + b.nodes + c.nodes + d.nodes + SumNodes(rest)
  {
    SumCons(d, rest);
    SumCons(c, [d] + rest);
    SumCons(b, [c] + ([d] + rest));
    SumCons(a, [b] + ([c] + ([d] + rest)));
    assert [a, b, c, d] + rest == [a] + ([b] + ([c] + ([d] + rest)));
  }

  lemma FewSizes(a: Size, b: Size, c: Size)
    ensures SumBytes([a]) == a.name + 4 + a.bytes && SumNodes([a]) == a.nodes
    ensures SumBytes([a, b]) == a.name + b.name + 8 + a.bytes + b.bytes && SumNodes([a, b]) == a.nodes + b.nodes
    ensures SumBytes([a, b, c]) == a.name + b.name + c.name + 12 + a.bytes + b.bytes + c.bytes
    ensures SumNodes([a, b, c]) == a.nodes + b.nodes + c.nodes
  {
    SumCons(a, []);
    assert [a] + [] == [a];
    SumCons(b, []);
    assert [b] + [] == [b];
    SumCons(c, []);
    assert [c] + [] == [c];
    SumCons(a, [b]);
    assert [a] + [b] == [a, b];
    SumCons(b, [c]);
    assert [b] + [c] == [b, c];
    SumCons(a, [b, c]);
    assert [a] + [b, c] == [a, b, c];
  }

  // ----- arrays -----

  /** What the items from k on take, a separator each. */
  function ItemBytes(items: seq<Json>, k: nat): nat
    requires k <= |items|
    decreases |items| - k
  {
    if k == |items| then 0 else Length(items[k]) + 1 + ItemBytes(items, k + 1)
  }

  lemma NextItem(items: seq<Json>, k: nat, bytes: nat)
    requires k < |items| && Length(items[k]) == bytes
    ensures ItemBytes(items, k) == bytes + 1 + ItemBytes(items, k + 1)
  {
  }

  lemma {:induction false} PrintedItemsBytes(items: seq<Json>, k: nat)
    requires k < |items| && forall i :: 0 <= i < |items| ==> IsPlainJson(items[i])
    ensures |EncodeAll(PrintItems(NormalItems(items)[k..]))| + 1 == ItemBytes(items, k)
    decreases |items| - k
  {
    var normal := NormalItems(items);
    assert normal[k..][0] == Normal(items[k]);
    if k + 1 < |items| {
      PrintedItemsBytes(items, k + 1);
      assert normal[k..][1..] == normal[k + 1..];
      EncodeConcat(Print(normal[k]), [COMMA]);
      EncodeConcat(Print(normal[k]) + [COMMA], PrintItems(normal[k + 1..]));
      EncodeAscii([COMMA]);
    } else {
      assert ItemBytes(items, k + 1) == 0;
    }
  }

  lemma {:induction false} ItemsMeasures(items: seq<Json>, nodes: nat, depth: nat, k: nat)
    requires k <= |items| && forall i :: 0 <= i < |items| ==> Nodes(items[i]) <= nodes && Depth(items[i]) <= depth
    ensures DepthItems(items[k..]) <= depth + 1
    ensures NodesItems(items[k..]) <= (|items| - k) * nodes
    decreases |items| - k
  {
    if k < |items| {
      ItemsMeasures(items, nodes, depth, k + 1);
      assert items[k..][1..] == items[k + 1..];
      assert (|items| - k) * nodes == nodes + (|items| - k - 1) * nodes;
    }
  }

  lemma BracketBytes(t: Text)
    ensures |EncodeAll([LBRACKET] + t + [RBRACKET])| == |EncodeAll(t)| + 2
  {
    EncodeConcat([LBRACKET], t);
    EncodeConcat([LBRACKET] + t, [RBRACKET]);
    EncodeAscii([LBRACKET]);
    EncodeAscii([RBRACKET]);
  }

  lemma BracketedLength(items: seq<Json>)
    ensures Length(Arr(items)) == |EncodeAll(PrintItems(NormalItems(items)))| + 2
  {
    BracketBytes(PrintItems(NormalItems(items)));
  }

  lemma ArrayBytes(items: seq<Json>)
    requires items != [] && forall i :: 0 <= i < |items| ==> IsPlainJson(items[i])
    ensures Length(Arr(items)) == 1 + ItemBytes(items, 0)
  {
    BracketedLength(items);
    PrintedItemsBytes(items, 0);
    assert NormalItems(items)[0..] == NormalItems(items);
  }

  lemma ArrayMeasures(items: seq<Json>, nodes: nat, depth: nat)
    requires forall i :: 0 <= i < |items| ==>
               IsPlainJson(items[i]) && Nodes(items[i]) <= nodes && Depth(items[i]) <= depth
    ensures IsPlainJson(Arr(items)) && Depth(Arr(items)) <= depth + 1 && Nodes(Arr(items)) <= 1 + |items| * nodes
    ensures Length(Arr(items)) == if items == [] then 2 else 1 + ItemBytes(items, 0)
  {
    ItemsMeasures(items, nodes, depth, 0);
    assert items[0..] == items;
    if items == [] {
      BracketedLength(items);
    } else {
      ArrayBytes(items);
    }
  }

  lemma OneMore(count: nat, each: nat)
    ensures (count + 1) * each == each + count * each
  {
  }

  lemma {:induction false} EvenItems(items: seq<Json>, k: nat, each: nat)
    requires k <= |items| && forall i :: k <= i < |items| ==> Length(items[i]) == each
    ensures ItemBytes(items, k) == (|items| - k) * (each + 1)
    decreases |items| - k
  {
    if k < |items| {
      EvenItems(items, k + 1, each);
      NextItem(items, k, each);
      OneMore(|items| - k - 1, each + 1);
    }
  }

  lemma {:induction false} ItemsAtMost(items: seq<Json>, k: nat, each: nat)
    requires k <= |items| && forall i :: 0 <= i < |items| ==> Length(items[i]) + 1 <= each
    ensures ItemBytes(items, k) <= (|items| - k) * each
    decreases |items| - k
  {
    if k < |items| {
      ItemsAtMost(items, k + 1, each);
      NextItem(items, k, Length(items[k]));
      OneMore(|items| - k - 1, each);
    }
  }
}
