/** Pod role labels route the Services. Two controllers write them: the availability-group controller from the primary's
    server name, and the instance controller from a host name built out of it. */
module RoutingLabels {
  import opened Selection
  import opened AgModel

  // ----- Names -----

  function Digit(d: nat): char
    requires d < 10
  {
    ['0', '1', '2', '3', '4', '5', '6', '7', '8', '9'][d]
  }

  /** Decimal text of a replica index. */
  function Decimal(n: nat): (s: string)
    ensures s != "" && '.' !in s
  {
    if n < 10 then [Digit(n)] else Decimal(n / 10) + [Digit(n % 10)]
  }

  function PodName(server: string, i: nat): string {
    server + "-" + Decimal(i)
  }

  lemma {:induction false} DecimalInjective(m: nat, n: nat)
    requires Decimal(m) == Decimal(n)
    ensures m == n
  {
    var s, t := Decimal(m), Decimal(n);
    assert s[|s| - 1] == Digit(m % 10) && t[|t| - 1] == Digit(n % 10);
    assert m % 10 == n % 10;
    if m >= 10 && n >= 10 {
      assert s[..|s| - 1] == Decimal(m / 10) && t[..|t| - 1] == Decimal(n / 10);
      DecimalInjective(m / 10, n / 10);
    }
  }

  /** The replica list of a managed group: one server name per pod. */
  function PodNames(server: string, n: nat): (names: seq<Name>)
    ensures |names| == n && forall i :: 0 <= i < n ==> names[i] == PodName(server, i)
  {
    seq(n, i requires 0 <= i < n => PodName(server, i))
  }

  /** It meets what the webhook asks of a replica list. */
  lemma PodNamesValid(server: string, n: nat)
    requires n >= 2
    ensures Distinct(PodNames(server, n)) && "" !in PodNames(server, n)
  {
    forall i, j | 0 <= i < j < n
      ensures PodName(server, i) != PodName(server, j)
    {
      var a, b := PodName(server, i), PodName(server, j);
      assert a[|server| + 1..] == Decimal(i) && b[|server| + 1..] == Decimal(j);
      if a == b {
        DecimalInjective(i, j);
      }
    }
  }

  predicate ContainsDot(s: string) {
    '.' in s
  }

  /** The host name of a pod behind the headless Service. */
  function Fqdn(pod: string, server: string, namespace: string): string {
    pod + "." + server + "-headless." + namespace + ".svc.cluster.local"
  }

  /** What the instance controller stores as primary: the host name, unless the server name has a dot already. */
  function ManagedPrimary(primary: Name, server: string, namespace: string): string {
    if ContainsDot(primary) then primary else Fqdn(primary, server, namespace)
  }

  /** The host name under which the operator connects to replica `i`. */
  function ReplicaHost(server: string, i: nat, namespace: string): string {
    server + "-" + Decimal(i) + "." + server + "-headless." + namespace + ".svc.cluster.local"
  }

  /** For a server name without a dot, the stored primary is the host name of the replica it stands for, and of no
      other. */
  lemma PrimaryIsItsHost(server: string, i: nat, j: nat, namespace: string)
    requires '.' !in server
    ensures ManagedPrimary(PodName(server, i), server, namespace) == ReplicaHost(server, j, namespace) <==> i == j
  {
    PodOfDottedServer(server, i);
    PodOfDottedServer(server, j);
    var a, b := ReplicaHost(server, i, namespace), ReplicaHost(server, j, namespace);
    assert a == Fqdn(PodName(server, i), server, namespace) && b == Fqdn(PodName(server, j), server, namespace);
    ShortNameInverts(PodName(server, i), server, namespace);
    ShortNameInverts(PodName(server, j), server, namespace);
    if a == b {
      assert PodName(server, i)[|server| + 1..] == Decimal(i) && PodName(server, j)[|server| + 1..] == Decimal(j);
      DecimalInjective(i, j);
    }
  }

  function DotIndex(s: string): (i: nat) {
    FirstIn(s, {'.'})
  }

  /** The pod name the label writer takes out of it: all before the first dot, if that is not the first character. */
  function ShortName(host: string): string {
    var i := DotIndex(host);
    if 0 < i < |host| then host[..i] else host
  }

  lemma DotIndexUnique(s: string, i: nat)
    requires i < |s| && s[i] == '.' && forall j :: 0 <= j < i ==> s[j] != '.'
    ensures DotIndex(s) == i
  {
  }

  /** Building the host name and taking the pod name out of it are inverse exactly when the name has no dot, or starts
      with one. */
  lemma ShortNameInverts(primary: Name, server: string, namespace: string)
    requires primary != ""
    ensures ShortName(ManagedPrimary(primary, server, namespace)) == primary
            <==> !ContainsDot(primary) || primary[0] == '.'
  {
    if !ContainsDot(primary) {
      var host := Fqdn(primary, server, namespace);
      assert host[|primary|] == '.' && forall j :: 0 <= j < |primary| ==> host[j] == primary[j];
      DotIndexUnique(host, |primary|);
      assert host[..|primary|] == primary;
    } else {
      var k :| 0 <= k < |primary| && primary[k] == '.';
      assert DotIndex(primary) <= k;
    }
  }

  // ----- The instance controller's writer -----

  function RoleOf(pod: Name, primary: Name): Label {
    if pod == primary then PrimaryLabel else SecondaryLabel
  }

  lemma NextLabelled(order: seq<Name>, pods: map<Name, Label>, pod: Name, primary: Name, fails: set<Name>)
    ensures Labelled(order + [pod], pods, primary, fails) ==
            var l := Labelled(order, pods, primary, fails);
            if pod in l && pod !in fails then l[pod := RoleOf(pod, primary)] else l
  {
  }

  class InstanceReconciler {
    var pods: map<Name, Label>

    constructor (pods: map<Name, Label>)
      ensures this.pods == pods
    {
      this.pods := pods;
    }

    /** One pod: skipped when it cannot be read or has its label; false when the patch fails. */
    method LabelPod(pod: Name, role: Label, readFails: set<Name>, patchFails: set<Name>) returns (ok: bool)
      modifies this
      ensures pods == if ok && pod in old(pods) && pod !in readFails then old(pods)[pod := role] else old(pods)
      ensures !ok ==> pod in patchFails * old(pods).Keys
    {
      if pod in readFails || pod !in pods || pods[pod] == role {
        return true;
      }
      if pod in patchFails {
        return false;
      }
      pods := pods[pod := role];
      return true;
    }

    /** Label the pods of a server in order; a pod that cannot be read is skipped, a failed patch ends the loop. */
    method ReconcileReplicaRoleLabels(server: string, replicas: nat, primaryReplica: string,
                                      readFails: set<Name>, patchFails: set<Name>) returns (ok: bool)
      modifies this
      ensures ok ==> pods == Labelled(PodNames(server, replicas), old(pods), ShortName(primaryReplica), readFails)
      ensures !ok ==> exists k :: 0 <= k < replicas && PodName(server, k) in patchFails * old(pods).Keys &&
                        pods == Labelled(PodNames(server, k), old(pods), ShortName(primaryReplica), readFails)
      ensures patchFails == {} ==> ok
    {
      var idx := DotIndex(primaryReplica);
      var primaryPod := if 0 < idx < |primaryReplica| then primaryReplica[..idx] else primaryReplica;
      for i := 0 to replicas
        invariant pods == Labelled(PodNames(server, i), old(pods), primaryPod, readFails)
      {
        var pod := PodName(server, i);
        assert PodNames(server, i + 1) == PodNames(server, i) + [pod];
        NextLabelled(PodNames(server, i), old(pods), pod, primaryPod, readFails);
        ok := LabelPod(pod, RoleOf(pod, primaryPod), readFails, patchFails);
        if !ok {
          return;
        }
      }
      return true;
    }

    /** The replica list the instance controller writes into a new availability group. */
    method BuildReplicaList(server: string, replicas: nat) returns (names: seq<Name>)
      ensures names == PodNames(server, replicas)
    {
      names := [];
      for i := 0 to replicas
        invariant names == PodNames(server, i)
      {
        names := names + [PodName(server, i)];
      }
    }
  }

  // ----- What the labels promise -----

  /** The pods that the read-write Service selects, among the listed ones. */
  function Routed(order: seq<Name>, pods: map<Name, Label>): set<Name> {
    set n | n in order && n in pods && pods[n].PrimaryLabel?
  }

  /** When every pod can be read and patched, a label pass leaves the read-write Service with exactly the named primary.
      */
  lemma LabelledRoutes(order: seq<Name>, pods: map<Name, Label>, primary: Name)
    ensures Routed(order, Labelled(order, pods, primary, {})) ==
            if primary in order && primary in pods then {primary} else {}
  {
  }

  lemma PodOfDottedServer(server: string, i: nat)
    ensures ContainsDot(PodName(server, i)) <==> ContainsDot(server)
    ensures ContainsDot(server) && server[0] != '.' ==> !ContainsDot(ShortName(PodName(server, i)))
  {
    var pod := PodName(server, i);
    assert forall j :: 0 <= j < |server| ==> pod[j] == server[j];
    if ContainsDot(server) {
      var k :| 0 <= k < |server| && server[k] == '.';
      assert pod[k] == '.';
      assert DotIndex(pod) <= k;
    } else {
      assert forall c :: c in pod ==> c in server || c == '-' || c in Decimal(i);
    }
  }

  /** The two writers, for a primary that is one of the pods of a managed server: they compute the same labels exactly
      when the server's name has no dot, or starts with one; otherwise the instance controller routes writes nowhere. */
  lemma WritersAgree(server: string, namespace: string, n: nat, p: nat, pods: map<Name, Label>)
    requires p < n && PodName(server, p) in pods
    ensures var order, primary := PodNames(server, n), PodName(server, p);
            var short := ShortName(ManagedPrimary(primary, server, namespace));
            var plain := !ContainsDot(server) || server[0] == '.';
            && (Labelled(order, pods, short, {}) == Labelled(order, pods, primary, {}) <==> plain)
            && (!plain ==> Routed(order, Labelled(order, pods, short, {})) == {})
  {
    var order, primary := PodNames(server, n), PodName(server, p);
    assert primary == order[p];
    ShortNameInverts(primary, server, namespace);
    PodOfDottedServer(server, p);
    if ContainsDot(server) && server[0] != '.' {
      var short := ShortName(ManagedPrimary(primary, server, namespace));
      forall i | 0 <= i < n
        ensures order[i] != short
      {
        PodOfDottedServer(server, i);
      }
      LabelledRoutes(order, pods, short);
      LabelledRoutes(order, pods, primary);
    }
  }

  /** A fencing pass cuts traffic: exactly the fenced pods that can be read and patched lose the primary label, whether
      or not its SQL command succeeds, and no pod gains it. */
  lemma FencingCutsTraffic(spec: Spec, w: World, io: FencingIO)
    requires spec.Valid() && Knows(spec, w) && FencePass(spec, w, io).fenced
    ensures SeenPrimaries(spec, w.replicas) != {}
    ensures Routed(spec.order, FencePass(spec, w, io).world.pods) ==
            Routed(spec.order, w.pods) - (RogueSet(spec, w, io.checkAt) - io.podFails)
  {
    assert Primaries(spec, w)[0] in SeenPrimaries(spec, w.replicas);
  }
}
