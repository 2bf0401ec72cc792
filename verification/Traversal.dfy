/** Items kept or read one at a time, a reading stopping at the first that cannot be read. */
module Traversal {
  import opened Outcomes

  /** The items that satisfy p, in order. */
  function Kept<A>(items: seq<A>, p: A -> bool): seq<A> {
    if items == [] then [] else (if p(items[0]) then [items[0]] else []) + Kept(items[1..], p)
  }

  lemma KeptCons<A>(item: A, rest: seq<A>, p: A -> bool)
    ensures Kept([item] + rest, p) == if p(item) then [item] + Kept(rest, p) else Kept(rest, p)
  {
    assert ([item] + rest)[1..] == rest;
    assert [] + Kept(rest, p) == Kept(rest, p);
  }

  /** Items none of which satisfies p add nothing. */
  lemma {:induction false} KeptAfter<A>(before: seq<A>, items: seq<A>, p: A -> bool)
    requires forall i :: 0 <= i < |before| ==> !p(before[i])
    ensures Kept(before + items, p) == Kept(items, p)
  {
    if before == [] {
      assert before + items == items;
    } else {
      KeptAfter(before[1..], items, p);
      assert before + items == [before[0]] + (before[1..] + items);
      KeptCons(before[0], before[1..] + items, p);
    }
  }

  /** The readings of the items from k on, appended to those already done. */
  function Collect<A(!new), B>(items: seq<A>, read: A --> Option<B>, k: nat, done: seq<B>): Option<seq<B>>
    requires k <= |items| && forall i :: 0 <= i < |items| ==> read.requires(items[i])
    decreases |items| - k
  {
    if k == |items| then Some(done)
    else
      match read(items[k])
      case None => None
      case Some(b) => Collect(items, read, k + 1, done + [b])
  }

  lemma {:induction false} CollectFrom<A(!new), B>(items: seq<A>, read: A --> Option<B>, k: nat, done: seq<B>)
    requires k <= |items| && forall i :: 0 <= i < |items| ==> read.requires(items[i])
    ensures Collect(items, read, k, done).Some? <==> forall i :: k <= i < |items| ==> read(items[i]).Some?
    ensures Collect(items, read, k, done).Some? ==>
              var r := Collect(items, read, k, done).value;
              && |r| == |done| + |items| - k
              && (forall i :: 0 <= i < |done| ==> r[i] == done[i])
              && forall i :: k <= i < |items| ==> read(items[i]) == Some(r[|done| + i - k])
    decreases |items| - k
  {
    if k < |items| && read(items[k]).Some? {
      var b := read(items[k]).value;
      CollectFrom(items, read, k + 1, done + [b]);
      assert (done + [b])[|done|] == b;
    }
  }

  /** Everything is read exactly when each item can be, item by item and in order. */
  lemma CollectExactly<A(!new), B>(items: seq<A>, read: A --> Option<B>)
    requires forall i :: 0 <= i < |items| ==> read.requires(items[i])
    ensures Collect(items, read, 0, []).Some? <==> forall i :: 0 <= i < |items| ==> read(items[i]).Some?
    ensures Collect(items, read, 0, []).Some? ==>
              var r := Collect(items, read, 0, []).value;
              |r| == |items| && forall i :: 0 <= i < |items| ==> read(items[i]) == Some(r[i])
  {
    var none: seq<B> := [];
    CollectFrom(items, read, 0, none);
    if Collect(items, read, 0, none).Some? {
      var r := Collect(items, read, 0, none).value;
      forall i | 0 <= i < |items| ensures read(items[i]) == Some(r[i]) {
        assert r[|none| + i - 0] == r[i];
      }
    }
  }
}
