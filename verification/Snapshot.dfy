/**
 The cycle-safe snapshot that copies an arbitrary Python object graph into a finite tree
 (`_snapshot_canonical_value` in mmi/canonical.py).
 */
module Snapshot {
  import opened Outcomes
  import opened Texts
  import opened JsonValues
  import opened JsonText
  import opened JsonRoundTrip
  import opened Canonical

  /** What `id()` tells apart. */
  type Ref = nat

  datatype Key = TextKey(text: Text) | OtherKey

  datatype Entry = Entry(key: Key, value: Ref)

  /** One object of the graph; `OtherCell` is any type the snapshot does not know. */
  datatype Cell =
    | NoneCell
    | BoolCell(b: bool)
    | IntCell(n: int)
    | StrCell(s: Text)
    | FloatCell
    | OtherCell
    | ListCell(items: seq<Ref>)
    | DictCell(entries: seq<Entry>)

  type Graph = Ref -> Cell

  /** The finite tree t is what following every reference from r unfolds to. */
  predicate Unfolds(g: Graph, r: Ref, t: Json)
    decreases t
  {
    match t
    case Null => g(r) == NoneCell
    case Bool(b) => g(r) == BoolCell(b)
    case Int(n) => g(r) == IntCell(n)
    case Str(s) => g(r) == StrCell(s)
    case Float(_) => false
    case Arr(items) =>
      g(r).ListCell? && |g(r).items| == |items|
      && forall i :: 0 <= i < |items| ==> Unfolds(g, g(r).items[i], items[i])
    case Obj(members) =>
      g(r).DictCell? && |g(r).entries| == |members|
      && forall i :: 0 <= i < |members| ==>
           g(r).entries[i].key == TextKey(members[i].key)
           && Unfolds(g, g(r).entries[i].value, members[i].value)
  }

  predicate IsChild(g: Graph, parent: Ref, child: Ref) {
    match g(parent)
    case ListCell(items) => child in items
    case DictCell(entries) => exists i :: 0 <= i < |entries| && entries[i].value == child
    case _ => false
  }

  lemma {:induction false} UnfoldsOnce(g: Graph, r: Ref, t: Json, u: Json)
    requires Unfolds(g, r, t) && Unfolds(g, r, u)
    ensures t == u
    decreases t
  {
    match t
    case Arr(items) =>
      forall i | 0 <= i < |items| ensures items[i] == u.items[i] {
        UnfoldsOnce(g, g(r).items[i], items[i], u.items[i]);
      }
      assert items == u.items;
    case Obj(members) =>
      forall i | 0 <= i < |members| ensures members[i] == u.members[i] {
        UnfoldsOnce(g, g(r).entries[i].value, members[i].value, u.members[i].value);
      }
      assert members == u.members;
    case _ =>
  }

  lemma {:induction false} NodesOfPart(items: seq<Json>, i: nat)
    requires i < |items|
    ensures NodesItems(items) >= NodesItems(items[..i]) + Nodes(items[i])
    ensures DepthItems(items) >= 1 + Depth(items[i])
  {
    if i == 0 {
      assert items[..0] == [];
    } else {
      NodesOfPart(items[1..], i - 1);
      assert items[..i] == [items[0]] + items[1..][..i - 1];
    }
  }

  lemma {:induction false} NodesOfMember(members: seq<Member>, i: nat)
    requires i < |members|
    ensures NodesMembers(members) >= NodesMembers(members[..i]) + Nodes(members[i].value)
    ensures DepthMembers(members) >= 1 + Depth(members[i].value)
  {
    if i == 0 {
      assert members[..0] == [];
    } else {
      NodesOfMember(members[1..], i - 1);
      assert members[..i] == [members[0]] + members[1..][..i - 1];
    }
  }

  lemma {:induction false} NodesAppend(items: seq<Json>, v: Json)
    ensures NodesItems(items + [v]) == NodesItems(items) + Nodes(v)
    ensures DepthItems(items + [v]) == MaxNat(DepthItems(items), 1 + Depth(v))
  {
    if items == [] {
      assert [] + [v] == [v] && [v][1..] == [];
    } else {
      NodesAppend(items[1..], v);
      assert (items + [v])[1..] == items[1..] + [v];
    }
  }

  lemma {:induction false} NodesAppendMember(members: seq<Member>, m: Member)
    ensures NodesMembers(members + [m]) == NodesMembers(members) + Nodes(m.value)
    ensures DepthMembers(members + [m]) == MaxNat(DepthMembers(members), 1 + Depth(m.value))
  {
    if members == [] {
      assert [] + [m] == [m] && [m][1..] == [];
    } else {
      NodesAppendMember(members[1..], m);
      assert (members + [m])[1..] == members[1..] + [m];
    }
  }

  // ----- cycles have no finite unfolding -----

  /** A chain of references, each a child of the one before. */
  predicate Chain(g: Graph, path: seq<Ref>) {
    forall i :: 0 < i < |path| ==> IsChild(g, path[i - 1], path[i])
  }

  /** An unfolding of a parent contains a smaller unfolding of each child. */
  lemma ChildUnfolds(g: Graph, parent: Ref, child: Ref, t: Json) returns (u: Json)
    requires Unfolds(g, parent, t) && IsChild(g, parent, child)
    ensures Unfolds(g, child, u) && Nodes(u) < Nodes(t)
  {
    if t.Arr? {
      var i :| 0 <= i < |g(parent).items| && g(parent).items[i] == child;
      u := t.items[i];
      NodesOfPart(t.items, i);
    } else {
      var i :| 0 <= i < |g(parent).entries| && g(parent).entries[i].value == child;
      u := t.members[i].value;
      NodesOfMember(t.members, i);
    }
  }

  lemma {:induction false} ChainUnfolds(g: Graph, path: seq<Ref>, t: Json) returns (u: Json)
    requires |path| > 0 && Chain(g, path) && Unfolds(g, path[0], t)
    ensures Unfolds(g, path[|path| - 1], u)
    ensures if |path| == 1 then u == t else Nodes(u) < Nodes(t)
    decreases |path|
  {
    if |path| == 1 {
      u := t;
    } else {
      var v := ChildUnfolds(g, path[0], path[1], t);
      u := ChainUnfolds(g, path[1..], v);
    }
  }

  lemma CycleNeverUnfolds(g: Graph, path: seq<Ref>, t: Json)
    requires |path| > 1 && Chain(g, path) && path[0] == path[|path| - 1]
    ensures !Unfolds(g, path[0], t)
  {
    if Unfolds(g, path[0], t) {
      var u := ChainUnfolds(g, path, t);
      UnfoldsOnce(g, path[0], t, u);
    }
  }

  // ----- the walk -----

  ghost predicate NoTree(g: Graph, r: Ref) {
    forall t :: !Unfolds(g, r, t)
  }

  /** What each error says about every unfolding of r. */
  ghost predicate Explains(e: CanonicalError, g: Graph, r: Ref, depth: nat, count: nat) {
    match e
    case DepthExceeded => forall t :: Unfolds(g, r, t) ==> depth + Depth(t) > MAXIMUM_CANONICAL_DEPTH
    case NodeCountExceeded => forall t :: Unfolds(g, r, t) ==> count + Nodes(t) > MAXIMUM_CANONICAL_NODES
    case FloatProhibited => NoTree(g, r)
    case CycleProhibited => NoTree(g, r)
    case ObjectKeyInvalid => NoTree(g, r)
    case TypeUnsupported => NoTree(g, r)
    case _ => false
  }

  class Walk {
    const graph: Graph
    var nodeCount: nat
    var active: set<Ref>

    constructor (g: Graph)
      ensures graph == g && nodeCount == 0 && active == {}
    {
      graph := g;
      nodeCount := 0;
      active := {};
    }

    /**
     The path of open containers above r is ghost: it is what `active` holds as a set.
     */
    method Copy(r: Ref, depth: nat, ghost path: seq<Ref>) returns (res: Result<Json, CanonicalError>)
      requires depth <= MAXIMUM_CANONICAL_DEPTH + 1
      requires active == set x | x in path
      requires Chain(graph, path + [r])
      modifies this
      ensures active == old(active)
      ensures res.Ok? ==>
                && Unfolds(graph, r, res.value)
                && depth + Depth(res.value) <= MAXIMUM_CANONICAL_DEPTH
                && nodeCount == old(nodeCount) + Nodes(res.value) <= MAXIMUM_CANONICAL_NODES
      ensures res.Err? ==> Explains(res.error, graph, r, depth, old(nodeCount))
      decreases MAXIMUM_CANONICAL_DEPTH + 1 - depth, 1
    {
      if depth > MAXIMUM_CANONICAL_DEPTH {
        return Err(DepthExceeded);
      }
      nodeCount := nodeCount + 1;
      if nodeCount > MAXIMUM_CANONICAL_NODES {
        return Err(NodeCountExceeded);
      }
      match graph(r)
      case NoneCell => return Ok(Null);
      case BoolCell(b) => return Ok(Bool(b));
      case IntCell(n) => return Ok(Int(n));
      case StrCell(s) => return Ok(Str(s));
      case FloatCell => return Err(FloatProhibited);
      case OtherCell => return Err(TypeUnsupported);
      case ListCell(items) =>
        if r in active {
          assert NoTree(graph, r) by { OnPath(graph, path, r); }
          return Err(CycleProhibited);
        }
        active := active + {r};
        res := CopyItems(r, items, depth, path);
        active := active - {r};
      case DictCell(entries) =>
        if r in active {
          assert NoTree(graph, r) by { OnPath(graph, path, r); }
          return Err(CycleProhibited);
        }
        active := active + {r};
        if exists i :: 0 <= i < |entries| && entries[i].key == OtherKey {
          res := Err(ObjectKeyInvalid);
        } else {
          res := CopyEntries(r, entries, depth, path);
        }
        active := active - {r};
    }

    method CopyItems(r: Ref, items: seq<Ref>, depth: nat, ghost path: seq<Ref>)
      returns (res: Result<Json, CanonicalError>)
      requires depth <= MAXIMUM_CANONICAL_DEPTH
      requires graph(r) == ListCell(items)
      requires active == (set x | x in path) + {r}
      requires Chain(graph, path + [r])
      requires 0 < nodeCount <= MAXIMUM_CANONICAL_NODES
      modifies this
      ensures active == old(active)
      ensures res.Ok? ==>
                && Unfolds(graph, r, res.value)
                && depth + Depth(res.value) <= MAXIMUM_CANONICAL_DEPTH
                && nodeCount == old(nodeCount) - 1 + Nodes(res.value) <= MAXIMUM_CANONICAL_NODES
      ensures res.Err? ==> Explains(res.error, graph, r, depth, old(nodeCount) - 1)
      decreases MAXIMUM_CANONICAL_DEPTH + 1 - depth, 0
    {
      var copied: seq<Json> := [];
      var i := 0;
      while i < |items|
        invariant 0 <= i <= |items| && |copied| == i
        invariant active == old(active)
        invariant forall j :: 0 <= j < i ==> Unfolds(graph, items[j], copied[j])
        invariant nodeCount == old(nodeCount) + NodesItems(copied) <= MAXIMUM_CANONICAL_NODES
        invariant depth + DepthItems(copied) <= MAXIMUM_CANONICAL_DEPTH
      {
        ChildChain(graph, path, r, items[i]);
        var item := Copy(items[i], depth + 1, path + [r]);
        if item.Err? {
          ItemExplains(item.error, graph, r, depth, old(nodeCount) - 1, copied);
          return item;
        }
        NodesAppend(copied, item.value);
        copied := copied + [item.value];
        i := i + 1;
      }
      return Ok(Arr(copied));
    }

    method CopyEntries(r: Ref, entries: seq<Entry>, depth: nat, ghost path: seq<Ref>)
      returns (res: Result<Json, CanonicalError>)
      requires depth <= MAXIMUM_CANONICAL_DEPTH
      requires graph(r) == DictCell(entries)
      requires forall i :: 0 <= i < |entries| ==> entries[i].key.TextKey?
      requires active == (set x | x in path) + {r}
      requires Chain(graph, path + [r])
      requires 0 < nodeCount <= MAXIMUM_CANONICAL_NODES
      modifies this
      ensures active == old(active)
      ensures res.Ok? ==>
                && Unfolds(graph, r, res.value)
                && depth + Depth(res.value) <= MAXIMUM_CANONICAL_DEPTH
                && nodeCount == old(nodeCount) - 1 + Nodes(res.value) <= MAXIMUM_CANONICAL_NODES
      ensures res.Err? ==> Explains(res.error, graph, r, depth, old(nodeCount) - 1)
      decreases MAXIMUM_CANONICAL_DEPTH + 1 - depth, 0
    {
      var copied: seq<Member> := [];
      var i := 0;
      while i < |entries|
        invariant 0 <= i <= |entries| && |copied| == i
        invariant active == old(active)
        invariant CopiedEntries(graph, entries, copied)
        invariant nodeCount == old(nodeCount) + NodesMembers(copied) <= MAXIMUM_CANONICAL_NODES
        invariant depth + DepthMembers(copied) <= MAXIMUM_CANONICAL_DEPTH
      {
        ChildChain(graph, path, r, entries[i].value);
        var item := Copy(entries[i].value, depth + 1, path + [r]);
        if item.Err? {
          EntryExplains(item.error, graph, r, depth, old(nodeCount) - 1, copied);
          return item;
        }
        var m := Member(entries[i].key.text, item.value);
        NodesAppendMember(copied, m);
        copied := copied + [m];
        i := i + 1;
      }
      return Ok(Obj(copied));
    }
  }

  lemma OnPath(g: Graph, path: seq<Ref>, r: Ref)
    requires r in path && Chain(g, path + [r])
    ensures NoTree(g, r)
  {
    var i :| 0 <= i < |path| && path[i] == r;
    var loop := (path + [r])[i..];
    assert Chain(g, loop) by {
      forall k | 0 < k < |loop| ensures IsChild(g, loop[k - 1], loop[k]) {
        assert loop[k] == (path + [r])[i + k] && loop[k - 1] == (path + [r])[i + k - 1];
      }
    }
    forall t ensures !Unfolds(g, r, t) {
      CycleNeverUnfolds(g, loop, t);
    }
  }

  lemma ChildChain(g: Graph, path: seq<Ref>, r: Ref, child: Ref)
    requires Chain(g, path + [r]) && IsChild(g, r, child)
    ensures Chain(g, path + [r] + [child])
  {
    var longer := path + [r] + [child];
    forall k | 0 < k < |longer| ensures IsChild(g, longer[k - 1], longer[k]) {
      if k < |path + [r]| {
        assert longer[k] == (path + [r])[k] && longer[k - 1] == (path + [r])[k - 1];
      }
    }
  }

  /** Every unfolding of the parent holds an unfolding of the child, with this many nodes besides. */
  ghost predicate Holds(g: Graph, parent: Ref, child: Ref, besides: nat) {
    forall t :: Unfolds(g, parent, t) ==>
      exists u :: Unfolds(g, child, u) && Nodes(t) >= besides + Nodes(u) && Depth(t) >= 1 + Depth(u)
  }

  /** So a failure at the child is a failure of every unfolding of the parent. */
  lemma ChildExplains(e: CanonicalError, g: Graph, parent: Ref, child: Ref, depth: nat, count: nat, besides: nat)
    requires Holds(g, parent, child, besides)
    requires Explains(e, g, child, depth + 1, count + besides)
    ensures Explains(e, g, parent, depth, count)
  {
  }

  lemma ItemPart(g: Graph, r: Ref, t: Json, copied: seq<Json>) returns (u: Json)
    requires g(r).ListCell? && |copied| < |g(r).items|
    requires forall j :: 0 <= j < |copied| ==> Unfolds(g, g(r).items[j], copied[j])
    requires Unfolds(g, r, t)
    ensures Unfolds(g, g(r).items[|copied|], u)
    ensures Nodes(t) >= 1 + NodesItems(copied) + Nodes(u) && Depth(t) >= 1 + Depth(u)
  {
    var i := |copied|;
    u := t.items[i];
    forall j | 0 <= j < i ensures t.items[j] == copied[j] {
      UnfoldsOnce(g, g(r).items[j], t.items[j], copied[j]);
    }
    assert t.items[..i] == copied;
    NodesOfPart(t.items, i);
  }

  lemma ItemExplains(e: CanonicalError, g: Graph, r: Ref, depth: nat, count: nat, copied: seq<Json>)
    requires g(r).ListCell? && |copied| < |g(r).items|
    requires forall j :: 0 <= j < |copied| ==> Unfolds(g, g(r).items[j], copied[j])
    requires Explains(e, g, g(r).items[|copied|], depth + 1, count + 1 + NodesItems(copied))
    ensures Explains(e, g, r, depth, count)
  {
    var child := g(r).items[|copied|];
    assert Holds(g, r, child, 1 + NodesItems(copied)) by {
      forall t | Unfolds(g, r, t)
        ensures exists u :: Unfolds(g, child, u)
                  && Nodes(t) >= 1 + NodesItems(copied) + Nodes(u) && Depth(t) >= 1 + Depth(u)
      {
        var u := ItemPart(g, r, t, copied);
      }
    }
    ChildExplains(e, g, r, child, depth, count, 1 + NodesItems(copied));
  }

  ghost predicate CopiedEntries(g: Graph, entries: seq<Entry>, copied: seq<Member>) {
    |copied| <= |entries|
    && forall j :: 0 <= j < |copied| ==>
         entries[j].key == TextKey(copied[j].key) && Unfolds(g, entries[j].value, copied[j].value)
  }

  lemma EntryPart(g: Graph, r: Ref, t: Json, copied: seq<Member>) returns (u: Json)
    requires g(r).DictCell? && |copied| < |g(r).entries|
    requires CopiedEntries(g, g(r).entries, copied)
    requires Unfolds(g, r, t)
    ensures Unfolds(g, g(r).entries[|copied|].value, u)
    ensures Nodes(t) >= 1 + NodesMembers(copied) + Nodes(u) && Depth(t) >= 1 + Depth(u)
  {
    var i := |copied|;
    u := t.members[i].value;
    forall j | 0 <= j < i ensures t.members[j] == copied[j] {
      UnfoldsOnce(g, g(r).entries[j].value, t.members[j].value, copied[j].value);
    }
    assert t.members[..i] == copied;
    NodesOfMember(t.members, i);
  }

  lemma EntryExplains(e: CanonicalError, g: Graph, r: Ref, depth: nat, count: nat, copied: seq<Member>)
    requires g(r).DictCell? && |copied| < |g(r).entries|
    requires CopiedEntries(g, g(r).entries, copied)
    requires Explains(e, g, g(r).entries[|copied|].value, depth + 1, count + 1 + NodesMembers(copied))
    ensures Explains(e, g, r, depth, count)
  {
    var child := g(r).entries[|copied|].value;
    assert Holds(g, r, child, 1 + NodesMembers(copied)) by {
      forall t | Unfolds(g, r, t)
        ensures exists u :: Unfolds(g, child, u)
                  && Nodes(t) >= 1 + NodesMembers(copied) + Nodes(u) && Depth(t) >= 1 + Depth(u)
      {
        var u := EntryPart(g, r, t, copied);
      }
    }
    ChildExplains(e, g, r, child, depth, count, 1 + NodesMembers(copied));
  }

  // ----- canonical bytes of a graph -----

  lemma {:induction false} UnfoldedHasNoFloat(g: Graph, r: Ref, t: Json)
    requires Unfolds(g, r, t)
    ensures !HasFloat(t)
    decreases t
  {
    match t
    case Arr(items) =>
      forall i | 0 <= i < |items| ensures !HasFloat(items[i]) {
        UnfoldedHasNoFloat(g, g(r).items[i], items[i]);
      }
    case Obj(members) =>
      forall i | 0 <= i < |members| ensures !HasFloat(members[i].value) {
        UnfoldedHasNoFloat(g, g(r).entries[i].value, members[i].value);
      }
    case _ =>
  }

  /**
   `canonical_json_bytes`: on a graph that unfolds to a finite tree, exactly the canonical
   bytes of that tree when it is within every limit; on any other graph, an error.
   */
  method CanonicalGraphBytes(g: Graph, root: Ref, maximumBytes: int)
    returns (res: Result<Bytes, CanonicalError>)
    ensures forall t :: Unfolds(g, root, t) ==>
              (res.Ok? <==> CanonicalJsonBytes(t, maximumBytes).Ok?)
              && (res.Ok? ==> res == CanonicalJsonBytes(t, maximumBytes))
    ensures NoTree(g, root) ==> res.Err?
    ensures res == Err(BoundInvalid) <==> maximumBytes < 1
    ensures res == Err(CycleProhibited) ==> NoTree(g, root)
  {
    if maximumBytes < 1 {
      return Err(BoundInvalid);
    }
    var walk := new Walk(g);
    assert Chain(g, [root]);
    assert [] + [root] == [root];
    var copy := walk.Copy(root, 0, []);
    if copy.Err? {
      forall t | Unfolds(g, root, t) ensures CanonicalJsonBytes(t, maximumBytes).Err? {
        AdmitExactly(t, 0, 0);
      }
      return Err(copy.error);
    }
    forall t | Unfolds(g, root, t) ensures t == copy.value {
      UnfoldsOnce(g, root, t, copy.value);
    }
    UnfoldedHasNoFloat(g, root, copy.value);
    AdmitExactly(copy.value, 0, 0);
    res := CanonicalJsonBytes(copy.value, maximumBytes);
  }
}
