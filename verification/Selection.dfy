/** Selecting from a list by membership, which is what the reconcilers' loops over the replica list do. */
module Selection {

  datatype Option<+T> = None | Some(value: T)

  predicate Distinct<T(==)>(s: seq<T>) {
    forall i, j :: 0 <= i < j < |s| ==> s[i] != s[j]
  }

  function Members<T(==)>(s: seq<T>): set<T> {
    set x | x in s
  }

  /** The elements of `order` that lie in `keep`, in the order of `order`. */
  function Keep<T(==,!new)>(order: seq<T>, keep: set<T>): (r: seq<T>)
    ensures forall x :: x in r <==> x in order && x in keep
    ensures Distinct(order) ==> Distinct(r)
  {
    if order == [] then [] else
      var last := order[|order| - 1];
      var front := Keep(order[..|order| - 1], keep);
      assert order == order[..|order| - 1] + [last];
      if last in keep then front + [last] else front
  }

  /** The first position of `order` that lies in `keep`, or the length when there is none. */
  function FirstIn<T(==)>(order: seq<T>, keep: set<T>): (i: nat)
    ensures i <= |order|
    ensures forall j :: 0 <= j < i ==> order[j] !in keep
    ensures i < |order| ==> order[i] in keep
  {
    if order == [] then 0
    else if order[0] in keep then 0
    else
      var i := FirstIn(order[1..], keep);
      assert forall j :: 0 < j < i + 1 ==> order[j] == order[1..][j - 1];
      i + 1
  }

  lemma KeepAppend<T(!new)>(order: seq<T>, x: T, keep: set<T>)
    ensures Keep(order + [x], keep) == Keep(order, keep) + if x in keep then [x] else []
  {
    assert (order + [x])[..|order|] == order;
  }

  lemma {:induction false} KeepNone<T(!new)>(order: seq<T>)
    ensures Keep(order, {}) == []
  {
    if order != [] {
      KeepNone(order[..|order| - 1]);
    }
  }

  lemma KeepOne<T(!new)>(order: seq<T>, keep: set<T>, x: T)
    requires Distinct(order) && x in order
    requires forall y :: y in order && y in keep <==> y == x
    ensures Keep(order, keep) == [x]
  {
    var r := Keep(order, keep);
    assert x in r;
    var k :| 0 <= k < |r| && r[k] == x;
    assert r[0] in r && r[|r| - 1] in r;
  }

  lemma KeepTwo<T(!new)>(order: seq<T>, keep: set<T>, x: T, y: T)
    requires x != y && x in order && y in order && x in keep && y in keep
    ensures |Keep(order, keep)| >= 2
  {
    var r := Keep(order, keep);
    var i :| 0 <= i < |r| && r[i] == x;
    var j :| 0 <= j < |r| && r[j] == y;
  }

  lemma ThirdElement<T>(s: seq<T>, a: T, b: T)
    requires Distinct(s) && |s| >= 3
    ensures exists i :: 0 <= i < |s| && s[i] != a && s[i] != b
  {
    var i := if s[0] != a && s[0] != b then 0 else if s[1] != a && s[1] != b then 1 else 2;
    assert s[i] != a && s[i] != b;
  }

  lemma {:induction false} KeepKeep<T(!new)>(order: seq<T>, keep: set<T>, fewer: set<T>)
    requires fewer <= keep
    ensures Keep(Keep(order, keep), fewer) == Keep(order, fewer)
  {
    if order != [] {
      var front, last := order[..|order| - 1], order[|order| - 1];
      assert order == front + [last];
      KeepKeep(front, keep, fewer);
      if last in keep {
        KeepAppend(Keep(front, keep), last, fewer);
      }
    }
  }

  lemma {:induction false} FirstInAppend<T>(order: seq<T>, x: T, keep: set<T>)
    ensures FirstIn(order + [x], keep) ==
            if FirstIn(order, keep) < |order| then FirstIn(order, keep) else if x in keep then |order| else |order| + 1
  {
    if order == [] {
      assert order + [x] == [x];
    } else {
      assert (order + [x])[1..] == order[1..] + [x];
      FirstInAppend(order[1..], x, keep);
    }
  }

  /** Selecting a larger set first does not change which element of a smaller set comes first. */
  lemma {:induction false} FirstOfKeep<T(!new)>(order: seq<T>, keep: set<T>, fewer: set<T>)
    requires fewer <= keep
    ensures var r := Keep(order, keep);
            if FirstIn(order, fewer) < |order|
            then FirstIn(r, fewer) < |r| && r[FirstIn(r, fewer)] == order[FirstIn(order, fewer)]
            else FirstIn(r, fewer) == |r|
  {
    if order != [] {
      var front, last := order[..|order| - 1], order[|order| - 1];
      assert order == front + [last];
      FirstOfKeep(front, keep, fewer);
      FirstInAppend(front, last, fewer);
      if last in keep {
        FirstInAppend(Keep(front, keep), last, fewer);
      }
    }
  }
}
