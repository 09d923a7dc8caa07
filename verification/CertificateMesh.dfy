/** Distribution of certificates among the replicas of a managed server: each replica gets a certificate and an endpoint
    of its own, then imports every peer's certificate, with a login for it and the right to connect. */
module CertificateMesh {

  /** One SQL server. Certificates, logins and grants are filed under the index of the replica they stand for; a
      certificate is known by its key. */
  datatype Node = Node(masterKey: bool, endpoint: bool, certs: map<nat, int>, logins: set<nat>, grants: set<nat>) {
    predicate Ready(i: nat) { masterKey && endpoint && i in certs }
  }

  /** What replica `i` knows of replica `j`. */
  predicate SamePair(x: Node, y: Node, j: nat) {
    && (j in x.certs <==> j in y.certs)
    && (j in x.certs ==> x.certs[j] == y.certs[j])
    && (j in x.logins <==> j in y.logins)
    && (j in x.grants <==> j in y.grants)
  }

  /** Nothing filed under another index than `j` changes. */
  predicate OnlyPair(x: Node, y: Node, j: nat) {
    x.certs - {j} == y.certs - {j} && x.logins - {j} == y.logins - {j} && x.grants - {j} == y.grants - {j}
  }

  lemma OnlyPairSame(x: Node, y: Node, j: nat, k: nat)
    requires OnlyPair(x, y, j) && k != j
    ensures SamePair(x, y, k)
  {
    assert k in x.certs <==> k in x.certs - {j};
    assert k in y.certs <==> k in y.certs - {j};
    assert k in x.certs ==> x.certs[k] == (x.certs - {j})[k];
    assert k in y.certs ==> y.certs[k] == (y.certs - {j})[k];
    assert k in x.logins <==> k in x.logins - {j};
    assert k in y.logins <==> k in y.logins - {j};
    assert k in x.grants <==> k in x.grants - {j};
    assert k in y.grants <==> k in y.grants - {j};
  }

  /** Replica `i` accepts connections of replica `j`: the peer's own certificate, its login, its grant. */
  predicate Linked(nodes: seq<Node>, i: nat, j: nat)
    requires i < |nodes| && j < |nodes|
  {
    && j in nodes[i].certs && j in nodes[j].certs && nodes[i].certs[j] == nodes[j].certs[j]
    && j in nodes[i].logins && j in nodes[i].grants
  }

  predicate Mesh(nodes: seq<Node>) {
    && (forall i :: 0 <= i < |nodes| ==> nodes[i].Ready(i))
    && (forall i, j :: 0 <= i < |nodes| && 0 <= j < |nodes| && i != j ==> Linked(nodes, i, j))
  }

  /** Nothing is missing that a run looks for. */
  predicate Complete(nodes: seq<Node>) {
    && (forall i :: 0 <= i < |nodes| ==> nodes[i].Ready(i))
    && (forall i, j :: 0 <= i < |nodes| && 0 <= j < |nodes| ==> j in nodes[i].certs)
  }

  // ----- What a run does, replica by replica and pair by pair -----

  /** A replica on which nothing has been set up. */
  predicate Blank(x: Node) {
    !x.masterKey && !x.endpoint && x.certs == map[] && x.logins == {} && x.grants == {}
  }

  /** Nothing is known of replica `j`. */
  predicate Strange(x: Node, j: nat) {
    j !in x.certs && j !in x.logins && j !in x.grants
  }

  /** There is a login for `j` but not the certificate it is made from. */
  predicate StrayLogin(x: Node, j: nat) {
    j !in x.certs && j in x.logins
  }

  /** The certificate of `j` is there without its login or without the grant. */
  predicate Orphaned(x: Node, j: nat) {
    j in x.certs && !(j in x.logins && j in x.grants)
  }

  predicate NoStrayLogin(x: Node, i: nat, n: nat) {
    forall j :: 0 <= j < n && j != i ==> !StrayLogin(x, j)
  }

  predicate NoStrayLogins(nodes: seq<Node>) {
    forall i :: 0 <= i < |nodes| ==> NoStrayLogin(nodes[i], i, |nodes|)
  }

  predicate AllBlank(nodes: seq<Node>) {
    forall i :: 0 <= i < |nodes| ==> Blank(nodes[i])
  }

  /** The key of replica `j` once it is set up: the one it has, or the one its server generates. */
  function OwnKey(nodes: seq<Node>, newKeys: seq<int>, j: nat): int
    requires j < |nodes| == |newKeys|
  {
    if j in nodes[j].certs then nodes[j].certs[j] else newKeys[j]
  }

  /** Setting up replica `i` touches nothing filed under another index, and replaces nothing. */
  predicate SetUp(x: Node, y: Node, i: nat, newKey: int) {
    && (x.masterKey ==> y.masterKey) && (x.endpoint ==> y.endpoint)
    && (i in x.certs ==> i in y.certs && y.certs[i] == x.certs[i])
    && (i !in x.certs && i in y.certs ==> y.certs[i] == newKey)
    && OnlyPair(x, y, i) && x.logins == y.logins && x.grants == y.grants
    && (x.Ready(i) ==> x == y)
  }

  /** An import either skips the pair, because the certificate exists, or goes through certificate, login, grant in this
      order; it stops early only on a failure. `key` is the peer's key. */
  predicate Imported(x: Node, y: Node, j: nat, key: int, ok: bool) {
    if j in x.certs || (!ok && j !in y.certs) then SamePair(x, y, j)
    else
      && j in y.certs && y.certs[j] == key
      && (ok ==> j in y.logins && j in y.grants)
      && (j in x.logins ==> j in y.logins)
      && (j in y.grants && j !in x.grants ==> j in y.logins)
  }

  /** What a run does to one pair: an imported certificate ends all work on it; a new one is the peer's own, and without
      an error the pair is linked. */
  ghost predicate PairStep(a: seq<Node>, b: seq<Node>, i: nat, j: nat, ok: bool)
    requires i < |a| == |b| && j < |a|
  {
    if j in a[i].certs then SamePair(a[i], b[i], j)
    else
      && (ok ==> Linked(b, i, j))
      && (j in b[i].certs ==> j in b[j].certs && b[i].certs[j] == b[j].certs[j])
  }

  /** One run from `a` to `b`. */
  ghost predicate RunStep(a: seq<Node>, b: seq<Node>, newKeys: seq<int>, ok: bool) {
    && |a| == |b| == |newKeys|
    && (ok ==> forall i :: 0 <= i < |b| ==> b[i].Ready(i))
    && (forall i :: 0 <= i < |a| && i in a[i].certs ==> i in b[i].certs && b[i].certs[i] == a[i].certs[i])
    && (forall i :: 0 <= i < |a| && i in b[i].certs ==> b[i].certs[i] == OwnKey(a, newKeys, i))
    && (forall i, j :: 0 <= i < |a| && 0 <= j < |a| && i != j ==> PairStep(a, b, i, j, ok))
    && (Complete(a) ==> b == a)
  }

  /** The calls that the replicas from `i` on can need. */
  function Rest(n: nat, i: nat, each: nat): nat
    requires i <= n
  {
    (n - i) * each
  }

  lemma RestStart(n: nat, each: nat)
    ensures Rest(n, 0, each) == n * each
  {
  }

  lemma RestStep(n: nat, i: nat, each: nat)
    requires i < n
    ensures Rest(n, i, each) == Rest(n, i + 1, each) + each
  {
    assert (n - i) * each == (n - i - 1) * each + each;
  }

  class CertificateDistributor {
    const nodes: array<Node>

    /** How many more SQL calls succeed before one fails. */
    var budget: nat
    ghost var writes: nat

    constructor (nodes: array<Node>, budget: nat)
      ensures this.nodes == nodes && this.budget == budget && writes == 0
    {
      this.nodes := nodes;
      this.budget := budget;
      writes := 0;
    }

    method Call() returns (ok: bool)
      modifies this`budget
      ensures ok <==> old(budget) > 0
      ensures budget == old(budget) - if ok then 1 else 0
    {
      ok := budget > 0;
      if ok {
        budget := budget - 1;
      }
    }

    /** Master key, own certificate and endpoint of one replica, each created only when it is missing. */
    method SetupReplica(i: nat, newKey: int) returns (ok: bool)
      requires i < nodes.Length
      modifies this`budget, this`writes, nodes
      ensures forall k :: 0 <= k < nodes.Length && k != i ==> nodes[k] == old(nodes[k])
      ensures SetUp(old(nodes[i]), nodes[i], i, newKey)
      ensures ok ==> nodes[i].Ready(i)
      ensures Blank(old(nodes[i])) && old(budget) >= 6 ==> ok && budget == old(budget) - 6
      ensures old(budget) >= 6 ==> ok && budget >= old(budget) - 6
      ensures old(nodes[i]).Ready(i) ==> writes == old(writes)
    {
      ok := Call();
      if !ok {
        return;
      }
      if !nodes[i].masterKey {
        ok := Call();
        if !ok {
          return;
        }
        nodes[i] := nodes[i].(masterKey := true);
        writes := writes + 1;
      }
      ok := Call();
      if !ok {
        return;
      }
      if i !in nodes[i].certs {
        ok := Call();
        if !ok {
          return;
        }
        nodes[i] := nodes[i].(certs := nodes[i].certs[i := newKey]);
        writes := writes + 1;
      }
      ok := Call();
      if !ok {
        return;
      }
      if !nodes[i].endpoint {
        ok := Call();
        if !ok {
          return;
        }
        nodes[i] := nodes[i].(endpoint := true);
        writes := writes + 1;
      }
    }

    /** Import of one peer certificate. Creating a login that exists already is an error of the server. */
    method ImportPeer(i: nat, j: nat, key: int) returns (ok: bool)
      requires i < nodes.Length && i != j
      modifies this`budget, this`writes, nodes
      ensures forall k :: 0 <= k < nodes.Length && k != i ==> nodes[k] == old(nodes[k])
      ensures nodes[i].masterKey == old(nodes[i]).masterKey && nodes[i].endpoint == old(nodes[i]).endpoint
      ensures OnlyPair(old(nodes[i]), nodes[i], j)
      ensures Imported(old(nodes[i]), nodes[i], j, key, ok)
      ensures j in old(nodes[i]).certs ==> writes == old(writes) && nodes[i] == old(nodes[i])
      ensures j in old(nodes[i]).certs && old(budget) >= 1 ==> ok && budget == old(budget) - 1
      ensures !StrayLogin(old(nodes[i]), j) && old(budget) >= 4 ==> ok && budget >= old(budget) - 4
      ensures Strange(old(nodes[i]), j) ==> (Orphaned(nodes[i], j) <==> 2 <= old(budget) <= 3)
      ensures Strange(old(nodes[i]), j) && budget > 0 ==> ok && budget == old(budget) - 4
    {
      ok := Call();
      if !ok || j in nodes[i].certs {
        return;
      }
      ok := Call();
      if !ok {
        return;
      }
      nodes[i] := nodes[i].(certs := nodes[i].certs[j := key]);
      writes := writes + 1;
      ok := Call();
      if !ok || j in nodes[i].logins {
        return false;
      }
      nodes[i] := nodes[i].(logins := nodes[i].logins + {j});
      writes := writes + 1;
      ok := Call();
      if !ok {
        return;
      }
      nodes[i] := nodes[i].(grants := nodes[i].grants + {j});
      writes := writes + 1;
    }

    /** Pass 1: set up every replica and collect its certificate. */
    method SetupAll(newKeys: seq<int>) returns (ok: bool, binaries: map<nat, int>)
      requires |newKeys| == nodes.Length
      modifies this`budget, this`writes, nodes
      ensures forall i :: 0 <= i < nodes.Length ==> SetUp(old(nodes[..])[i], nodes[i], i, newKeys[i])
      ensures AllBlank(old(nodes[..])) && old(budget) >= 8 * nodes.Length ==>
                ok && budget == old(budget) - 8 * nodes.Length
      ensures old(budget) >= 8 * nodes.Length ==> ok && budget >= old(budget) - 8 * nodes.Length
      ensures ok ==> forall i :: 0 <= i < nodes.Length ==>
                nodes[i].Ready(i) && i in binaries && binaries[i] == nodes[i].certs[i]
      ensures (forall i :: 0 <= i < nodes.Length ==> old(nodes[..])[i].Ready(i)) ==> writes == old(writes)
    {
      binaries := map[];
      ghost var a := nodes[..];
      for i := 0 to nodes.Length
        invariant forall k :: 0 <= k < i ==> SetUp(a[k], nodes[k], k, newKeys[k])
        invariant forall k :: i <= k < nodes.Length ==> nodes[k] == a[k]
        invariant forall k :: 0 <= k < i ==> nodes[k].Ready(k) && k in binaries && binaries[k] == nodes[k].certs[k]
        invariant (forall k :: 0 <= k < nodes.Length ==> a[k].Ready(k)) ==> writes == old(writes)
        invariant AllBlank(a) && old(budget) >= 8 * nodes.Length ==>
                    budget == old(budget) - 8 * i
        invariant old(budget) >= 8 * nodes.Length ==> budget >= old(budget) - 8 * i
      {
        ok := Call();
        if !ok {
          return;
        }
        ok := SetupReplica(i, newKeys[i]);
        if !ok {
          return;
        }
        ok := Call();
        if !ok {
          return;
        }
        binaries := binaries[i := nodes[i].certs[i]];
      }
      ok := true;
    }

    /** Pass 2, one replica: import every peer certificate. */
    method ImportPeers(i: nat, binaries: map<nat, int>) returns (ok: bool)
      requires i < nodes.Length && forall j :: 0 <= j < nodes.Length ==> j in binaries
      modifies this`budget, this`writes, nodes
      ensures forall k :: 0 <= k < nodes.Length && k != i ==> nodes[k] == old(nodes[k])
      ensures nodes[i].masterKey == old(nodes[i]).masterKey && nodes[i].endpoint == old(nodes[i]).endpoint
      ensures SamePair(old(nodes[i]), nodes[i], i)
      ensures forall j :: 0 <= j < nodes.Length && j != i ==>
                Imported(old(nodes[i]), nodes[i], j, binaries[j], ok)
      ensures (forall j :: 0 <= j < nodes.Length ==> j in old(nodes[i]).certs)
              ==> writes == old(writes) && nodes[i] == old(nodes[i])
      ensures old(budget) >= 1 + 4 * nodes.Length && NoStrayLogin(old(nodes[i]), i, nodes.Length) ==>
                ok && budget >= old(budget) - 1 - 4 * nodes.Length
      ensures i == 0 && nodes.Length >= 2 && Strange(old(nodes[i]), 1) && 3 <= old(budget) <= 4 ==>
                !ok && Orphaned(nodes[i], 1)
    {
      ghost var before := nodes[i];
      ok := Call();
      if !ok {
        return;
      }
      for j := 0 to nodes.Length
        invariant forall k :: 0 <= k < nodes.Length && k != i ==> nodes[k] == old(nodes[k])
        invariant nodes[i].masterKey == before.masterKey && nodes[i].endpoint == before.endpoint
        invariant SamePair(before, nodes[i], i)
        invariant forall k :: 0 <= k < j && k != i ==> Imported(before, nodes[i], k, binaries[k], true)
        invariant forall k :: j <= k < nodes.Length ==> SamePair(before, nodes[i], k)
        invariant (forall k :: 0 <= k < nodes.Length ==> k in before.certs)
                  ==> writes == old(writes) && nodes[i] == before
        invariant old(budget) >= 1 + 4 * nodes.Length && NoStrayLogin(before, i, nodes.Length) ==>
                    budget >= old(budget) - 1 - 4 * j
        invariant i == 0 && nodes.Length >= 2 && Strange(before, 1) && 3 <= old(budget) <= 4 ==>
                    j <= 1 && nodes[i] == before && budget == old(budget) - 1
      {
        if j == i {
          continue;
        }
        ghost var x := nodes[i];
        ghost var same, stray := SamePair(before, x, j), StrayLogin(before, j);
        ok := ImportPeer(i, j, binaries[j]);
        assert Imported(before, nodes[i], j, binaries[j], ok);
        forall k | 0 <= k < nodes.Length && k != j
          ensures k == i || j <= k ==> SamePair(before, nodes[i], k)
          ensures k < j && k != i ==> Imported(before, nodes[i], k, binaries[k], true)
        {
          OnlyPairSame(x, nodes[i], j, k);
          ghost var sameBefore, importedBefore := SamePair(before, x, k), Imported(before, x, k, binaries[k], true);
        }
        if !ok {
          return;
        }
      }
      ok := true;
    }

    /** Pass 2: every replica. */
    method ImportAll(binaries: map<nat, int>) returns (ok: bool)
      requires forall j :: 0 <= j < nodes.Length ==> j in binaries
      modifies this`budget, this`writes, nodes
      ensures forall i :: 0 <= i < nodes.Length ==>
                && nodes[i].masterKey == old(nodes[..])[i].masterKey && nodes[i].endpoint == old(nodes[..])[i].endpoint
                && SamePair(old(nodes[..])[i], nodes[i], i)
      ensures forall i, j :: 0 <= i < nodes.Length && 0 <= j < nodes.Length && i != j ==>
                Imported(old(nodes[..])[i], nodes[i], j, binaries[j], ok)
      ensures (forall i, j :: 0 <= i < nodes.Length && 0 <= j < nodes.Length ==> j in old(nodes[..])[i].certs)
              ==> writes == old(writes) && nodes[..] == old(nodes[..])
      ensures old(budget) >= nodes.Length * (1 + 4 * nodes.Length) && NoStrayLogins(old(nodes[..])) ==> ok
      ensures nodes.Length >= 2 && Strange(old(nodes[..])[0], 1) && 3 <= old(budget) <= 4 ==>
                !ok && Orphaned(nodes[0], 1)
    {
      ghost var a, n, each := nodes[..], nodes.Length, 1 + 4 * nodes.Length;
      ghost var enough := budget >= n * each && NoStrayLogins(a);
      RestStart(n, each);
      for i := 0 to nodes.Length
        invariant forall k :: i <= k < nodes.Length ==> nodes[k] == a[k]
        invariant forall k :: 0 <= k < i ==>
                    && nodes[k].masterKey == a[k].masterKey && nodes[k].endpoint == a[k].endpoint
                    && SamePair(a[k], nodes[k], k)
        invariant forall k, j :: 0 <= k < i && 0 <= j < nodes.Length && k != j ==>
                    Imported(a[k], nodes[k], j, binaries[j], true)
        invariant (forall k, j :: 0 <= k < nodes.Length && 0 <= j < nodes.Length ==> j in a[k].certs)
                  ==> writes == old(writes) && nodes[..] == a
        invariant enough ==> budget >= Rest(n, i, each)
        invariant nodes.Length >= 2 && Strange(a[0], 1) && 3 <= old(budget) <= 4 ==> i == 0 && budget == old(budget)
      {
        RestStep(n, i, each);
        ghost var clean := NoStrayLogin(a[i], i, n);
        ok := ImportPeers(i, binaries);
        if !ok {
          return;
        }
      }
      ok := true;
    }

    /** One run of distributeCertificatesToSQL; `newKeys` are the keys the servers generate. */
    method Distribute(newKeys: seq<int>) returns (ok: bool)
      requires |newKeys| == nodes.Length
      modifies this, nodes
      ensures RunStep(old(nodes[..]), nodes[..], newKeys, ok)
      ensures Complete(old(nodes[..])) ==> writes == old(writes)
      ensures old(budget) >= 8 * nodes.Length + nodes.Length * (1 + 4 * nodes.Length) && NoStrayLogins(old(nodes[..]))
              ==> ok
      ensures (nodes.Length >= 2 && AllBlank(old(nodes[..])) && 3 <= old(budget) - 8 * nodes.Length <= 4) ==>
                !ok && Orphan(nodes[..], 0, 1)
    {
      ghost var a := nodes[..];
      var binaries;
      ok, binaries := SetupAll(newKeys);
      ghost var mid := nodes[..];
      if ok {
        if nodes.Length >= 2 {
          OnlyPairSame(a[0], mid[0], 0, 1);
        }
        SetupKeepsLogins(a, mid, newKeys);
        ok := ImportAll(binaries);
        RunFromPasses(a, mid, nodes[..], binaries, newKeys, ok);
      } else {
        RunFromSetup(a, mid, newKeys);
      }
    }
  }

  lemma SetupKeepsLogins(a: seq<Node>, mid: seq<Node>, newKeys: seq<int>)
    requires |a| == |mid| == |newKeys| && forall i :: 0 <= i < |a| ==> SetUp(a[i], mid[i], i, newKeys[i])
    ensures NoStrayLogins(a) <==> NoStrayLogins(mid)
  {
    forall i, j | 0 <= i < |a| && 0 <= j < |a| && i != j
      ensures StrayLogin(a[i], j) <==> StrayLogin(mid[i], j)
    {
      OnlyPairSame(a[i], mid[i], i, j);
    }
    forall i | 0 <= i < |a|
      ensures NoStrayLogin(a[i], i, |a|) <==> NoStrayLogin(mid[i], i, |a|)
    {
    }
  }

  lemma RunFromSetup(a: seq<Node>, b: seq<Node>, newKeys: seq<int>)
    requires |a| == |b| == |newKeys| && forall i :: 0 <= i < |a| ==> SetUp(a[i], b[i], i, newKeys[i])
    ensures RunStep(a, b, newKeys, false)
  {
    forall i, j | 0 <= i < |a| && 0 <= j < |a| && i != j
      ensures PairStep(a, b, i, j, false)
    {
      OnlyPairSame(a[i], b[i], i, j);
    }
  }

  lemma RunFromPasses(a: seq<Node>, mid: seq<Node>, b: seq<Node>, binaries: map<nat, int>, newKeys: seq<int>, ok: bool)
    requires |a| == |mid| == |b| == |newKeys|
    requires forall i :: 0 <= i < |a| ==> SetUp(a[i], mid[i], i, newKeys[i])
    requires forall i :: 0 <= i < |a| ==> mid[i].Ready(i) && i in binaries && binaries[i] == mid[i].certs[i]
    requires forall i :: 0 <= i < |a| ==>
               b[i].masterKey == mid[i].masterKey && b[i].endpoint == mid[i].endpoint && SamePair(mid[i], b[i], i)
    requires forall i, j :: 0 <= i < |a| && 0 <= j < |a| && i != j ==> Imported(mid[i], b[i], j, binaries[j], ok)
    requires (forall i, j :: 0 <= i < |a| && 0 <= j < |a| ==> j in mid[i].certs) ==> b == mid
    ensures RunStep(a, b, newKeys, ok)
  {
    forall i, j | 0 <= i < |a| && 0 <= j < |a| && i != j
      ensures PairStep(a, b, i, j, ok)
    {
      OnlyPairSame(a[i], mid[i], i, j);
      assert Imported(mid[i], b[i], j, binaries[j], ok);
    }
    if Complete(a) {
      assert forall i :: 0 <= i < |a| ==> a[i].Ready(i) && mid[i] == a[i];
      assert mid == a;
    }
  }

  // ----- Over several runs -----

  /** The pair is imported but not linked. */
  predicate Orphan(nodes: seq<Node>, i: nat, j: nat)
    requires i < |nodes| && j < |nodes|
  {
    Orphaned(nodes[i], j)
  }

  /** A certificate that is there before the run fits: it has login and grant, and carries the peer's key. */
  predicate Fits(nodes: seq<Node>, newKeys: seq<int>, i: nat, j: nat)
    requires i < |nodes| == |newKeys| && j < |nodes|
  {
    j in nodes[i].certs ==> !Orphan(nodes, i, j) && nodes[i].certs[j] == OwnKey(nodes, newKeys, j)
  }

  /** What a run without error leaves: a pair is linked exactly when its certificate was not there before, or was there
      with login and grant and is that of the peer. */
  lemma RunLinks(a: seq<Node>, b: seq<Node>, newKeys: seq<int>, i: nat, j: nat)
    requires RunStep(a, b, newKeys, true) && i < |a| && j < |a| && i != j
    ensures Linked(b, i, j) <==> Fits(a, newKeys, i, j)
  {
    var step := PairStep(a, b, i, j, true);
    assert b[j].Ready(j);
  }

  /** Mesh: a run of any size that returns no error ends in a full mesh exactly when every imported certificate had its
      login and grant and is that of its peer; a further run then changes nothing. */
  lemma RunMeshes(a: seq<Node>, b: seq<Node>, newKeys: seq<int>)
    requires RunStep(a, b, newKeys, true)
    ensures Mesh(b) <==> forall i, j :: 0 <= i < |a| && 0 <= j < |a| && i != j ==> Fits(a, newKeys, i, j)
    ensures Complete(b)
    ensures forall c, keys, ok :: RunStep(b, c, keys, ok) ==> c == b
  {
    assert forall i :: 0 <= i < |b| ==> b[i].Ready(i) && i in b[i].certs;
    forall i, j | 0 <= i < |a| && 0 <= j < |a|
      ensures j in b[i].certs
    {
      if i != j {
        var step := PairStep(a, b, i, j, true);
      }
    }
    forall i, j | 0 <= i < |a| && 0 <= j < |a| && i != j
      ensures Linked(b, i, j) <==> Fits(a, newKeys, i, j)
    {
      RunLinks(a, b, newKeys, i, j);
    }
  }

  ghost predicate Runs(states: seq<seq<Node>>, keys: seq<seq<int>>, oks: seq<bool>) {
    && |states| == |oks| + 1 == |keys| + 1
    && forall k :: 0 <= k < |oks| ==> RunStep(states[k], states[k + 1], keys[k], oks[k])
  }

  /** An orphan is never repaired: whatever later runs do, the pair stays as the first failure left it. */
  lemma {:induction false} OrphanStays(states: seq<seq<Node>>, keys: seq<seq<int>>, oks: seq<bool>,
                                       i: nat, j: nat, k: nat)
    requires Runs(states, keys, oks) && k < |states|
    requires i < |states[0]| && j < |states[0]| && i != j && Orphan(states[0], i, j)
    ensures |states[k]| == |states[0]| && Orphan(states[k], i, j) && !Linked(states[k], i, j)
    decreases k
  {
    if k > 0 {
      OrphanStays(states, keys, oks, i, j, k - 1);
      assert RunStep(states[k - 1], states[k - 1 + 1], keys[k - 1], oks[k - 1]);
      var step := PairStep(states[k - 1], states[k], i, j, oks[k - 1]);
    }
  }

  /** Orphans do arise: on blank servers, however many, the run whose first login cannot be created leaves one, and so
      does the run whose first grant fails. */
  method LeaveOrphan(nodes: array<Node>, newKeys: seq<int>, atGrant: bool) returns (ok: bool)
    requires nodes.Length == |newKeys| >= 2 && AllBlank(nodes[..])
    modifies nodes
    ensures RunStep(old(nodes[..]), nodes[..], newKeys, ok) && !ok && Orphan(nodes[..], 0, 1)
  {
    var d := new CertificateDistributor(nodes, 8 * nodes.Length + if atGrant then 4 else 3);
    ok := d.Distribute(newKeys);
  }
}
