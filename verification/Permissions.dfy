/** Permission reconciliation: a pass compares the wanted grants and denies with a snapshot of the server, and acts on
    the server statement by statement without looking again. */
module Permissions {
  import opened Selection
  import opened Quoting

  datatype State = Grant | Deny

  /** One entry of the specification, and one row of what the server reports. */
  datatype Entry = Entry(permission: string, on: string)
  datatype Held = Held(permission: string, target: string, state: State)

  datatype Spec = Spec(upper: char -> char, grants: seq<Entry>, denies: seq<Entry>) {
    function Granted(): set<string> { Keys(upper, grants) }
    function Denied(): set<string> { Keys(upper, denies) }
  }

  function PermissionKey(upper: char -> char, permission: string, target: string): string {
    ToUpper(upper, permission) + "|" + ToUpper(upper, target)
  }

  function KeyOf(upper: char -> char, e: Entry): string {
    PermissionKey(upper, e.permission, e.on)
  }

  function Keys(upper: char -> char, entries: seq<Entry>): set<string> {
    set e | e in entries :: KeyOf(upper, e)
  }

  /** Known permission names have no bar, and for those a key names one permission on one target, up to case. */
  lemma KeyInjective(upper: char -> char, p: string, t: string, q: string, u: string)
    requires Casing(upper) && '|' !in p && '|' !in q
    ensures PermissionKey(upper, p, t) == PermissionKey(upper, q, u) <==>
            ToUpper(upper, p) == ToUpper(upper, q) && ToUpper(upper, t) == ToUpper(upper, u)
  {
    var a, b := PermissionKey(upper, p, t), PermissionKey(upper, q, u);
    assert forall i :: 0 <= i < |p| ==> a[i] != '|';
    assert forall i :: 0 <= i < |q| ==> b[i] != '|';
    assert a[|p|] == '|' && b[|q|] == '|';
    assert a[..|p|] == ToUpper(upper, p) && a[|p| + 1..] == ToUpper(upper, t);
    assert b[..|q|] == ToUpper(upper, q) && b[|q| + 1..] == ToUpper(upper, u);
    if a == b {
      assert |p| == |q|;
    }
  }

  // ----- What a pass does, key by key -----

  function At<T>(m: map<string, T>, k: string): Option<T> {
    if k in m then Some(m[k]) else None
  }

  function AfterGrants(spec: Spec, snap: map<string, State>, k: string): Option<State> {
    if k in spec.Granted() && At(snap, k) != Some(Grant) then Some(Grant) else At(snap, k)
  }

  function AfterDenies(spec: Spec, snap: map<string, State>, k: string): Option<State> {
    if k in spec.Denied() && At(snap, k) != Some(Deny) then Some(Deny) else AfterGrants(spec, snap, k)
  }

  /** A snapshot entry that is not wanted in the state it was seen in. */
  predicate Unwanted(spec: Spec, snap: map<string, State>, k: string) {
    k in snap && if snap[k].Grant? then k !in spec.Granted() else k !in spec.Denied()
  }

  function AfterAll(spec: Spec, snap: map<string, State>, k: string): Option<State> {
    if Unwanted(spec, snap, k) then None else AfterDenies(spec, snap, k)
  }

  /** The server after one pass without a failure. */
  function Pass(spec: Spec, snap: map<string, State>): map<string, State> {
    map k | k in snap.Keys + spec.Granted() + spec.Denied() && AfterAll(spec, snap, k).Some? ::
      AfterAll(spec, snap, k).value
  }

  /** A pass that has nothing to do. */
  predicate Quiet(spec: Spec, snap: map<string, State>) {
    && (forall k :: k in spec.Granted() ==> At(snap, k) == Some(Grant))
    && (forall k :: k in spec.Denied() ==> At(snap, k) == Some(Deny))
    && (forall k :: k in snap ==> !Unwanted(spec, snap, k))
  }

  // ----- The server and the controller -----

  function States(perms: map<string, Held>): map<string, State> {
    map k | k in perms :: perms[k].state
  }

  class PermissionServer {
    const upper: char -> char
    var perms: map<string, Held>
    ghost var statements: nat

    /** Rows are filed under their own key. */
    predicate Valid()
      reads this
    {
      forall k :: k in perms ==> PermissionKey(upper, perms[k].permission, perms[k].target) == k
    }

    constructor (upper: char -> char)
      ensures Valid() && this.upper == upper && perms == map[] && statements == 0
    {
      this.upper := upper;
      perms := map[];
      statements := 0;
    }

    /** GRANT or DENY: replace whatever the key held. */
    method Set(e: Entry, state: State)
      requires Valid()
      modifies this
      ensures Valid() && States(perms) == States(old(perms))[KeyOf(upper, e) := state]
      ensures statements == old(statements) + 1
    {
      perms := perms[KeyOf(upper, e) := Held(e.permission, e.on, state)];
      statements := statements + 1;
    }

    method Revoke(permission: string, target: string)
      requires Valid()
      modifies this
      ensures Valid() && States(perms) == States(old(perms)) - {PermissionKey(upper, permission, target)}
      ensures statements == old(statements) + 1
    {
      perms := perms - {PermissionKey(upper, permission, target)};
      statements := statements + 1;
    }
  }

  /** The server after the keys in `done` have been granted or denied where the snapshot does not show it. */
  function Asserted(before: map<string, State>, snap: map<string, State>, done: set<string>, wanted: State)
    : map<string, State>
  {
    map k | k in before.Keys + done && (k in before || At(snap, k) != Some(wanted)) ::
      if k in done && At(snap, k) != Some(wanted) then wanted else before[k]
  }

  predicate AllHeld(snap: map<string, State>, done: set<string>, wanted: State) {
    forall k :: k in done ==> At(snap, k) == Some(wanted)
  }

  /** The server after the unwanted ones among the keys in `done` have been revoked. */
  function Cleared(spec: Spec, before: map<string, State>, snap: map<string, State>, done: set<string>)
    : map<string, State>
  {
    map k | k in before && !(k in done && Unwanted(spec, snap, k)) :: before[k]
  }

  predicate NoneUnwanted(spec: Spec, snap: map<string, State>, done: set<string>) {
    forall k :: k in done ==> !Unwanted(spec, snap, k)
  }

  /** Where a pass can end: after some of the grants, after all of them and some of the denies, or after both and some
      of the revokes. */
  ghost predicate Underway(spec: Spec, snap: map<string, State>, now: map<string, State>) {
    var granted := Asserted(snap, snap, spec.Granted(), Grant);
    || (exists done :: done <= spec.Granted() && now == Asserted(snap, snap, done, Grant))
    || (exists done :: done <= spec.Denied() && now == Asserted(granted, snap, done, Deny))
    || (exists done :: done <= snap.Keys && now == Cleared(spec, BothAsserted(spec, snap), snap, done))
  }

  function BothAsserted(spec: Spec, snap: map<string, State>): map<string, State> {
    Asserted(Asserted(snap, snap, spec.Granted(), Grant), snap, spec.Denied(), Deny)
  }

  /** All three steps together are the pass. */
  lemma StepsMakePass(spec: Spec, snap: map<string, State>)
    ensures Cleared(spec, BothAsserted(spec, snap), snap, snap.Keys) == Pass(spec, snap)
  {
    var granted, denied := Asserted(snap, snap, spec.Granted(), Grant), BothAsserted(spec, snap);
    forall k
      ensures At(Cleared(spec, denied, snap, snap.Keys), k) == At(Pass(spec, snap), k)
    {
      assert At(granted, k) == AfterGrants(spec, snap, k);
      assert At(denied, k) == AfterDenies(spec, snap, k);
    }
    SameMap(Cleared(spec, denied, snap, snap.Keys), Pass(spec, snap));
  }

  lemma NextAsserted(before: map<string, State>, snap: map<string, State>, done: set<string>, key: string,
                     wanted: State)
    ensures Asserted(before, snap, done + {key}, wanted) ==
            var a := Asserted(before, snap, done, wanted);
            if At(snap, key) == Some(wanted) then a else a[key := wanted]
    ensures AllHeld(snap, done + {key}, wanted) <==> AllHeld(snap, done, wanted) && At(snap, key) == Some(wanted)
  {
  }

  lemma NextCleared(spec: Spec, before: map<string, State>, snap: map<string, State>, done: set<string>, key: string)
    ensures Cleared(spec, before, snap, done + {key}) ==
            var c := Cleared(spec, before, snap, done);
            if Unwanted(spec, snap, key) then c - {key} else c
    ensures NoneUnwanted(spec, snap, done + {key}) <==> NoneUnwanted(spec, snap, done) && !Unwanted(spec, snap, key)
  {
  }

  lemma NextKeys(upper: char -> char, entries: seq<Entry>, i: nat)
    requires i < |entries|
    ensures Keys(upper, entries[..i + 1]) == Keys(upper, entries[..i]) + {KeyOf(upper, entries[i])}
    ensures Keys(upper, entries[..i + 1]) <= Keys(upper, entries)
  {
    assert entries[..i + 1] == entries[..i] + [entries[i]];
  }

  class PermissionReconciler {
    const server: PermissionServer

    constructor (server: PermissionServer)
      ensures this.server == server
    {
      this.server := server;
    }

    /** Steps 7 and 8: GRANT or DENY each listed entry that the snapshot does not show in that state. `allowed` is the
        number of statements that succeed before one fails. */
    method Assert(entries: seq<Entry>, wanted: State, snapshot: map<string, Held>, allowed: nat)
      returns (ok: bool, left: nat, ghost done: set<string>)
      requires server.Valid()
      modifies server
      ensures server.Valid()
      ensures done <= Keys(server.upper, entries) && (ok ==> done == Keys(server.upper, entries)) && (!ok ==> left == 0)
      ensures States(server.perms) == Asserted(States(old(server.perms)), States(snapshot), done, wanted)
      ensures left <= allowed && server.statements + left == old(server.statements) + allowed
      ensures left == allowed <==> AllHeld(States(snapshot), done, wanted)
    {
      left := allowed;
      done := {};
      ghost var before, snap := States(server.perms), States(snapshot);
      for i := 0 to |entries|
        invariant server.Valid() && left <= allowed
        invariant done == Keys(server.upper, entries[..i]) <= Keys(server.upper, entries)
        invariant States(server.perms) == Asserted(before, snap, done, wanted)
        invariant server.statements + left == old(server.statements) + allowed
        invariant left == allowed <==> AllHeld(snap, done, wanted)
      {
        var key := KeyOf(server.upper, entries[i]);
        NextKeys(server.upper, entries, i);
        NextAsserted(before, snap, done, key, wanted);
        if !(key in snapshot && snapshot[key].state == wanted) {
          if left == 0 {
            return false, left, done;
          }
          server.Set(entries[i], wanted);
          left := left - 1;
        }
        done := done + {key};
      }
      assert entries[..|entries|] == entries;
      ok := true;
    }

    /** One round of step 9. */
    method RevokeIfUnwanted(spec: Spec, snapshot: map<string, Held>, key: string, left: nat)
      returns (ok: bool, rest: nat)
      requires server.Valid() && key in snapshot
      requires PermissionKey(server.upper, snapshot[key].permission, snapshot[key].target) == key
      modifies server
      ensures server.Valid() && (!ok <==> Unwanted(spec, States(snapshot), key) && left == 0)
      ensures States(server.perms) ==
              if ok && Unwanted(spec, States(snapshot), key) then States(old(server.perms)) - {key}
              else States(old(server.perms))
      ensures rest == left - if ok && Unwanted(spec, States(snapshot), key) then 1 else 0
      ensures server.statements + rest == old(server.statements) + left
    {
      ok, rest := true, left;
      var cur := snapshot[key];
      if (cur.state.Grant? && key !in spec.Granted()) || (cur.state.Deny? && key !in spec.Denied()) {
        if left == 0 {
          return false, left;
        }
        server.Revoke(cur.permission, cur.target);
        rest := left - 1;
      }
    }

    /** Step 9: revoke each snapshot entry that is not wanted in the state it was seen in, in any order. */
    method RevokeUnwanted(spec: Spec, snapshot: map<string, Held>, allowed: nat)
      returns (ok: bool, left: nat, ghost done: set<string>)
      requires server.Valid()
      requires forall k :: k in snapshot ==>
                 PermissionKey(server.upper, snapshot[k].permission, snapshot[k].target) == k
      modifies server
      ensures server.Valid()
      ensures done <= snapshot.Keys && (ok ==> done == snapshot.Keys) && (!ok ==> left == 0)
      ensures States(server.perms) == Cleared(spec, States(old(server.perms)), States(snapshot), done)
      ensures left <= allowed && server.statements + left == old(server.statements) + allowed
      ensures left == allowed <==> NoneUnwanted(spec, States(snapshot), done)
    {
      ghost var before, snap := States(server.perms), States(snapshot);
      var waiting := snapshot.Keys;
      left := allowed;
      done := {};
      while waiting != {}
        invariant done + waiting == snapshot.Keys
        invariant server.Valid() && left <= allowed
        invariant States(server.perms) == Cleared(spec, before, snap, done)
        invariant server.statements + left == old(server.statements) + allowed
        invariant left == allowed <==> NoneUnwanted(spec, snap, done)
        decreases waiting
      {
        var key :| key in waiting;
        NextCleared(spec, before, snap, done, key);
        ok, left := RevokeIfUnwanted(spec, snapshot, key, left);
        if !ok {
          return;
        }
        waiting := waiting - {key};
        done := done + {key};
      }
      ok := true;
    }

    /** The grants, then the denies. */
    method AssertAll(spec: Spec, snapshot: map<string, Held>, allowed: nat) returns (ok: bool, left: nat)
      requires server.Valid() && spec.upper == server.upper && States(server.perms) == States(snapshot)
      modifies server
      ensures server.Valid()
      ensures ok ==> States(server.perms) == BothAsserted(spec, States(snapshot))
      ensures !ok ==> Underway(spec, States(snapshot), States(server.perms)) && left == 0
      ensures left <= allowed && server.statements + left == old(server.statements) + allowed
      ensures ok ==> (left == allowed <==>
                        && AllHeld(States(snapshot), spec.Granted(), Grant)
                        && AllHeld(States(snapshot), spec.Denied(), Deny))
    {
      ghost var snap := States(snapshot);
      ghost var granted, denied;
      ok, left, granted := Assert(spec.grants, Grant, snapshot, allowed);
      if !ok {
        EndsInGrants(spec, snap, granted);
        return;
      }
      var before := left;
      ok, left, denied := Assert(spec.denies, Deny, snapshot, before);
      if !ok {
        EndsInDenies(spec, snap, denied);
      }
    }

    /** The pass: snapshot, grants, denies, revokes; it ends at the first statement that fails. */
    method Reconcile(spec: Spec, allowed: nat) returns (ok: bool)
      requires server.Valid() && spec.upper == server.upper
      modifies server
      ensures server.Valid()
      ensures ok ==> States(server.perms) == Pass(spec, States(old(server.perms)))
      ensures Underway(spec, States(old(server.perms)), States(server.perms))
      ensures server.statements <= old(server.statements) + allowed
      ensures !ok ==> server.statements == old(server.statements) + allowed
      ensures ok ==> (server.statements == old(server.statements) <==> Quiet(spec, States(old(server.perms))))
    {
      var snapshot := server.perms;
      ghost var snap := States(snapshot);
      StepsMakePass(spec, snap);
      QuietInSteps(spec, snap);
      var left;
      ok, left := AssertAll(spec, snapshot, allowed);
      if ok {
        var before := left;
        ghost var revoked;
        ok, left, revoked := RevokeUnwanted(spec, snapshot, before);
        EndsInRevokes(spec, snap, revoked);
      }
    }
  }

  lemma EndsInGrants(spec: Spec, snap: map<string, State>, done: set<string>)
    requires done <= spec.Granted()
    ensures Underway(spec, snap, Asserted(snap, snap, done, Grant))
  {
  }

  lemma EndsInDenies(spec: Spec, snap: map<string, State>, done: set<string>)
    requires done <= spec.Denied()
    ensures Underway(spec, snap, Asserted(Asserted(snap, snap, spec.Granted(), Grant), snap, done, Deny))
  {
  }

  lemma EndsInRevokes(spec: Spec, snap: map<string, State>, done: set<string>)
    requires done <= snap.Keys
    ensures Underway(spec, snap,
                     Cleared(spec, BothAsserted(spec, snap), snap, done))
  {
  }

  lemma QuietInSteps(spec: Spec, snap: map<string, State>)
    ensures Quiet(spec, snap) <==>
            && AllHeld(snap, spec.Granted(), Grant) && AllHeld(snap, spec.Denied(), Deny)
            && NoneUnwanted(spec, snap, snap.Keys)
  {
  }

  lemma SameMap(a: map<string, State>, b: map<string, State>)
    requires forall k :: At(a, k) == At(b, k)
    ensures a == b
  {
    assert forall k :: k in a ==> At(b, k).Some?;
    assert forall k :: k in b ==> At(a, k).Some?;
    assert forall k :: k in a ==> Some(a[k]) == At(a, k) == At(b, k) == Some(b[k]);
  }

  // ----- Convergence -----

  function Wanted(spec: Spec): map<string, State>
    requires spec.Granted() !! spec.Denied()
  {
    map k | k in spec.Granted() + spec.Denied() :: if k in spec.Granted() then Grant else Deny
  }

  /** An entry held in the state opposite to the wanted one. */
  predicate Flips(spec: Spec, snap: map<string, State>, k: string)
    requires spec.Granted() !! spec.Denied()
  {
    k in snap && k in Wanted(spec) && snap[k] != Wanted(spec)[k]
  }

  lemma PassAt(spec: Spec, snap: map<string, State>, k: string)
    ensures At(Pass(spec, snap), k) == AfterAll(spec, snap, k)
  {
  }

  /** With disjoint grants and denies, the first pass leaves exactly the wanted state, except that entries that flip end
      up absent. */
  lemma FirstPass(spec: Spec, snap: map<string, State>)
    requires spec.Granted() !! spec.Denied()
    ensures Pass(spec, snap) == Wanted(spec) - set k | k in snap && Flips(spec, snap, k)
  {
    var flipped := set k | k in snap && Flips(spec, snap, k);
    forall k
      ensures At(Pass(spec, snap), k) == At(Wanted(spec) - flipped, k)
    {
      PassAt(spec, snap, k);
    }
    SameMap(Pass(spec, snap), Wanted(spec) - flipped);
  }

  /** The wanted state is the only one a pass leaves alone. */
  lemma QuietIsWanted(spec: Spec, snap: map<string, State>)
    requires spec.Granted() !! spec.Denied()
    ensures Quiet(spec, snap) <==> snap == Wanted(spec)
  {
    if Quiet(spec, snap) {
      forall k
        ensures At(snap, k) == At(Wanted(spec), k)
      {
      }
      SameMap(snap, Wanted(spec));
    }
  }

  /** A key in both lists alternates between DENY and GRANT with period two, from any state. */
  lemma OverlapAlternates(spec: Spec, snap: map<string, State>, k: string)
    requires k in spec.Granted() && k in spec.Denied()
    ensures At(Pass(spec, snap), k) == Some(if At(snap, k) == Some(Deny) then Grant else Deny)
    ensures At(Pass(spec, Pass(spec, Pass(spec, snap))), k) == At(Pass(spec, snap), k)
            != At(Pass(spec, Pass(spec, snap)), k)
  {
    PassAt(spec, snap, k);
    PassAt(spec, Pass(spec, snap), k);
    PassAt(spec, Pass(spec, Pass(spec, snap)), k);
  }

  /** Convergence: two passes without failure reach the wanted state from any server state, and every later pass is
      quiet, exactly when no key is both granted and denied. */
  lemma PermissionsConverge(spec: Spec)
    ensures spec.Granted() !! spec.Denied() <==> forall snap :: Quiet(spec, Pass(spec, Pass(spec, snap)))
    ensures spec.Granted() !! spec.Denied() ==> forall snap :: Pass(spec, Pass(spec, snap)) == Wanted(spec)
  {
    if spec.Granted() !! spec.Denied() {
      forall snap: map<string, State>
        ensures Pass(spec, Pass(spec, snap)) == Wanted(spec) && Quiet(spec, Pass(spec, Pass(spec, snap)))
      {
        FirstPass(spec, snap);
        FirstPass(spec, Pass(spec, snap));
        QuietIsWanted(spec, Wanted(spec));
      }
    } else {
      var k :| k in spec.Granted() && k in spec.Denied();
      var none: map<string, State> := map[];
      assert !Quiet(spec, Pass(spec, Pass(spec, none)));
    }
  }

  // ----- Entry by entry -----

  /** The key of this entry is that of no entry in the other list. */
  predicate Unopposed(upper: char -> char, e: Entry, others: seq<Entry>) {
    forall o :: o in others ==> PermissionKey(upper, o.permission, o.on) != PermissionKey(upper, e.permission, e.on)
  }

  /** Every listed grant that no deny opposes is held as a grant after two passes, from any server state. */
  lemma GrantIsMade(spec: Spec, snap: map<string, State>, e: Entry)
    requires e in spec.grants && Unopposed(spec.upper, e, spec.denies)
    ensures At(Pass(spec, Pass(spec, snap)), PermissionKey(spec.upper, e.permission, e.on)) == Some(Grant)
  {
    var k := PermissionKey(spec.upper, e.permission, e.on);
    assert k == KeyOf(spec.upper, e) && k in spec.Granted();
    assert k !in spec.Denied();
    PassAt(spec, snap, k);
    PassAt(spec, Pass(spec, snap), k);
  }

  /** Every listed deny that no grant opposes is held as a deny after two passes. */
  lemma DenyIsMade(spec: Spec, snap: map<string, State>, e: Entry)
    requires e in spec.denies && Unopposed(spec.upper, e, spec.grants)
    ensures At(Pass(spec, Pass(spec, snap)), PermissionKey(spec.upper, e.permission, e.on)) == Some(Deny)
  {
    var k := PermissionKey(spec.upper, e.permission, e.on);
    assert k == KeyOf(spec.upper, e) && k in spec.Denied();
    assert k !in spec.Granted();
    PassAt(spec, snap, k);
    PassAt(spec, Pass(spec, snap), k);
  }

  /** One pass does it unless the entry is held in the opposite state; then it is absent in between. */
  lemma EntryAfterOnePass(spec: Spec, snap: map<string, State>, e: Entry)
    ensures var k := PermissionKey(spec.upper, e.permission, e.on);
            && (e in spec.grants && Unopposed(spec.upper, e, spec.denies) ==>
                  At(Pass(spec, snap), k) == if At(snap, k) == Some(Deny) then None else Some(Grant))
            && (e in spec.denies && Unopposed(spec.upper, e, spec.grants) ==>
                  At(Pass(spec, snap), k) == if At(snap, k) == Some(Grant) then None else Some(Deny))
  {
    var k := PermissionKey(spec.upper, e.permission, e.on);
    assert k == KeyOf(spec.upper, e);
    PassAt(spec, snap, k);
  }

  /** Whatever is held after a pass is listed in that state. */
  lemma HeldIsListed(spec: Spec, snap: map<string, State>, k: string) returns (e: Entry)
    requires k in Pass(spec, snap)
    ensures k == PermissionKey(spec.upper, e.permission, e.on)
    ensures e in if Pass(spec, snap)[k] == Grant then spec.grants else spec.denies
  {
    PassAt(spec, snap, k);
    if Pass(spec, snap)[k] == Grant {
      e :| e in spec.grants && KeyOf(spec.upper, e) == k;
    } else {
      e :| e in spec.denies && KeyOf(spec.upper, e) == k;
    }
  }

  /** A pass has nothing to do exactly when every listed entry is held and everything held is listed. */
  lemma QuietExactly(spec: Spec, snap: map<string, State>)
    ensures Quiet(spec, snap) <==>
            && (forall e :: e in spec.grants ==> At(snap, PermissionKey(spec.upper, e.permission, e.on)) == Some(Grant))
            && (forall e :: e in spec.denies ==> At(snap, PermissionKey(spec.upper, e.permission, e.on)) == Some(Deny))
            && (forall k :: k in snap ==>
                  exists e :: e in (if snap[k] == Grant then spec.grants else spec.denies) &&
                              PermissionKey(spec.upper, e.permission, e.on) == k)
  {
    forall e
      ensures e in spec.grants ==> PermissionKey(spec.upper, e.permission, e.on) in spec.Granted()
      ensures e in spec.denies ==> PermissionKey(spec.upper, e.permission, e.on) in spec.Denied()
    {
      assert PermissionKey(spec.upper, e.permission, e.on) == KeyOf(spec.upper, e);
    }
    forall k | k in snap
      ensures !Unwanted(spec, snap, k) <==>
              exists e :: e in (if snap[k] == Grant then spec.grants else spec.denies) &&
                          PermissionKey(spec.upper, e.permission, e.on) == k
    {
      if !Unwanted(spec, snap, k) {
        var list := if snap[k] == Grant then spec.grants else spec.denies;
        assert k in Keys(spec.upper, list);
        var e :| e in list && KeyOf(spec.upper, e) == k;
      }
    }
  }
}
