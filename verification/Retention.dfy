/** Retention of completed backups: which ones a cleanup deletes, and in what order. */
module Retention {
  import opened Clock
  import opened Selection

  /** A name is the schedule and the second its text formats. */
  datatype BackupName = BackupName(schedule: string, second: int)

  datatype Item = Item(name: BackupName, created: int)

  datatype Policy = Policy(maxAge: Setting, maxCount: Option<int>)

  predicate Sorted(items: seq<Item>) {
    forall i, j :: 0 <= i < j < |items| ==> items[i].created <= items[j].created
  }

  predicate DistinctNames(items: seq<Item>) {
    forall i, j :: 0 <= i < j < |items| ==> items[i].name != items[j].name
  }

  predicate TooOld(policy: Policy, now: int, item: Item) {
    policy.maxAge.Parsed? && now - item.created > policy.maxAge.d
  }

  /** Position of the first item that is not too old. */
  function FirstFresh(policy: Policy, now: int, items: seq<Item>): (n: nat)
    ensures n <= |items|
    ensures forall i :: 0 <= i < n ==> TooOld(policy, now, items[i])
    ensures n < |items| ==> !TooOld(policy, now, items[n])
  {
    if items == [] || !TooOld(policy, now, items[0]) then 0
    else
      var n := FirstFresh(policy, now, items[1..]);
      assert forall i :: 0 < i < n + 1 ==> items[i] == items[1..][i - 1];
      n + 1
  }

  /** How many items are beyond the allowed count. */
  function Excess(policy: Policy, n: nat): nat {
    if policy.maxCount.Some? && 0 < policy.maxCount.value < n then n - policy.maxCount.value else 0
  }

  /** How many of the sorted items are deleted. */
  function Cut(policy: Policy, now: int, items: seq<Item>): (n: nat)
    ensures n <= |items|
  {
    var aged, excess := FirstFresh(policy, now, items), Excess(policy, |items|);
    if aged > excess then aged else excess
  }

  // ----- The algorithm -----

  function Names(items: seq<Item>): (r: seq<BackupName>)
    ensures |r| == |items| && forall i :: 0 <= i < |r| ==> r[i] == items[i].name
  {
    seq(|items|, i requires 0 <= i < |items| => items[i].name)
  }

  /** The names deleted when the loop stops at the first delete that fails. */
  function Deleted(toDelete: seq<Item>, stuck: set<BackupName>): set<BackupName> {
    Members(Names(toDelete)[..FirstIn(Names(toDelete), stuck)])
  }

  /** Behind every item that is not newer, and before all that are: the order is kept. */
  lemma InsertedSorted(sorted: seq<Item>, k: nat, x: Item, r: seq<Item>)
    requires Sorted(sorted) && k <= |sorted| && r == sorted[..k] + [x] + sorted[k..]
    requires k > 0 ==> sorted[k - 1].created <= x.created
    requires k < |sorted| ==> x.created < sorted[k].created
    ensures Sorted(r)
  {
    assert forall i :: 0 <= i < k ==> r[i] == sorted[i] && r[i].created <= x.created;
    assert forall i :: k < i < |r| ==> r[i] == sorted[i - 1] && x.created <= r[i].created;
    assert r[k] == x;
  }

  lemma InsertedDistinct(sorted: seq<Item>, k: nat, x: Item, r: seq<Item>)
    requires DistinctNames(sorted) && k <= |sorted| && r == sorted[..k] + [x] + sorted[k..]
    requires forall y :: y in sorted ==> y.name != x.name
    ensures DistinctNames(r)
  {
    assert forall i :: 0 <= i < k ==> r[i] == sorted[i] && r[i].name != x.name;
    assert forall i :: k < i < |r| ==> r[i] == sorted[i - 1] && r[i].name != x.name;
    assert r[k] == x;
  }

  lemma InsertedMembers(sorted: seq<Item>, k: nat, x: Item)
    requires k <= |sorted|
    ensures Members(sorted[..k] + [x] + sorted[k..]) == Members(sorted) + {x}
  {
    assert sorted == sorted[..k] + sorted[k..];
  }

  /** Insert before the first item from the back that is not newer. */
  method Insert(sorted: seq<Item>, x: Item) returns (r: seq<Item>)
    requires Sorted(sorted)
    ensures Sorted(r) && Members(r) == Members(sorted) + {x} && |r| == |sorted| + 1
    ensures DistinctNames(sorted) && (forall y :: y in sorted ==> y.name != x.name) ==> DistinctNames(r)
  {
    var k := |sorted|;
    while k > 0 && sorted[k - 1].created > x.created
      invariant 0 <= k <= |sorted|
      invariant k < |sorted| ==> x.created < sorted[k].created
    {
      k := k - 1;
    }
    r := sorted[..k] + [x] + sorted[k..];
    InsertedSorted(sorted, k, x, r);
    InsertedMembers(sorted, k, x);
    if DistinctNames(sorted) && forall y :: y in sorted ==> y.name != x.name {
      InsertedDistinct(sorted, k, x, r);
    }
  }

  /** Sort by creation time; the order of items created in the same second is unspecified. */
  method SortByCreation(items: seq<Item>) returns (sorted: seq<Item>)
    requires DistinctNames(items)
    ensures Sorted(sorted) && DistinctNames(sorted) && Members(sorted) == Members(items) && |sorted| == |items|
  {
    sorted := [];
    for n := 0 to |items|
      invariant Sorted(sorted) && DistinctNames(sorted) && Members(sorted) == Members(items[..n]) && |sorted| == n
    {
      assert items[..n + 1] == items[..n] + [items[n]];
      assert forall y :: y in sorted ==> y in Members(items[..n]);
      sorted := Insert(sorted, items[n]);
    }
    assert items[..|items|] == items;
  }

  /** The items too old, then those beyond the count that are not selected already. */
  method SelectForDeletion(completed: seq<Item>, policy: Policy, now: int) returns (toDelete: seq<Item>)
    requires Sorted(completed) && DistinctNames(completed)
    ensures toDelete == completed[..Cut(policy, now, completed)]
  {
    toDelete := [];
    ghost var aged := FirstFresh(policy, now, completed);
    if policy.maxAge.Parsed? {
      for i := 0 to |completed|
        invariant toDelete == completed[..if i < aged then i else aged]
      {
        if now - completed[i].created > policy.maxAge.d {
          toDelete := toDelete + [completed[i]];
        }
      }
    }
    assert toDelete == completed[..aged];
    if policy.maxCount.Some? && policy.maxCount.value > 0 {
      var maxCount := policy.maxCount.value;
      if |completed| > maxCount {
        var excess := completed[..|completed| - maxCount];
        for i := 0 to |excess|
          invariant toDelete == completed[..if i < aged then aged else i]
        {
          var found := false;
          for j := 0 to |toDelete|
            invariant found <==> exists k :: 0 <= k < j && toDelete[k].name == excess[i].name
          {
            if toDelete[j].name == excess[i].name {
              found := true;
              break;
            }
          }
          assert found <==> i < aged by {
            if i < aged {
              assert toDelete[i].name == excess[i].name;
            }
          }
          if !found {
            toDelete := toDelete + [excess[i]];
          }
        }
      }
    }
  }

  // ----- What it promises -----

  /** Deleting is oldest first: an item goes exactly when it is too old or not among the newest `maxCount`. */
  lemma CutMeans(policy: Policy, now: int, items: seq<Item>, i: nat)
    requires Sorted(items) && i < |items|
    ensures i < Cut(policy, now, items) <==>
            TooOld(policy, now, items[i]) ||
            (policy.maxCount.Some? && policy.maxCount.value > 0 && |items| - i > policy.maxCount.value)
  {
    var n := FirstFresh(policy, now, items);
    if n < |items| && n <= i {
      assert items[n].created <= items[i].created;
    }
  }

  /** Whatever prefix of the deletion list is really deleted, no survivor is older than a deleted item; after the whole
      list, at most `maxCount` survive when that is positive, and none that is too old. */
  lemma KeepsNewest(policy: Policy, now: int, items: seq<Item>, deleted: nat)
    requires Sorted(items) && deleted <= Cut(policy, now, items)
    ensures forall x, y :: x in items[..deleted] && y in items[deleted..] ==> x.created <= y.created
    ensures deleted == Cut(policy, now, items) && policy.maxCount.Some? && policy.maxCount.value > 0
            ==> |items[deleted..]| <= policy.maxCount.value
    ensures deleted == Cut(policy, now, items) ==> forall y :: y in items[deleted..] ==> !TooOld(policy, now, y)
  {
    forall x, y | x in items[..deleted] && y in items[deleted..]
      ensures x.created <= y.created
    {
      var i :| 0 <= i < deleted && items[..deleted][i] == x;
      var j :| 0 <= j < |items| - deleted && items[deleted..][j] == y;
      assert items[i] == x && items[deleted + j] == y;
    }
    if deleted == Cut(policy, now, items) {
      forall y | y in items[deleted..]
        ensures !TooOld(policy, now, y)
      {
        var j :| 0 <= j < |items| - deleted && items[deleted..][j] == y;
        CutMeans(policy, now, items, deleted + j);
      }
    }
  }
}
