/** What the other components find in a list that the health check has rebuilt. */
module RebuiltLists {
  import opened Nodes
  import opened Health
  import opened Healing
  import opened ControlPlaneHealing
  import NodeVerifier

  /** Healing points at exactly the nodes whose Ready condition has not been true for
      longer than the threshold. */
  lemma SickNodesAreFound(kube: seq<KubeNode>, threshold: int, now: nat, i: nat)
    requires i < |kube|
    ensures i in PastThresholdPointers(ObservedAll(kube), threshold, now) <==>
            !kube[i].ready && kube[i].notReadySince.Some? && now - kube[i].notReadySince.value > threshold
  {
    PointersAreExact(ObservedAll(kube), threshold, now);
  }

  /** The etcd peer is asked at the internal address of the first ready node that has one;
      without such a node there is no peer. */
  lemma {:induction false} PeerIsFirstReady(kube: seq<KubeNode>, i: nat)
    requires i == |kube| || (i < |kube| && kube[i].ready && kube[i].internalIP != "")
    requires forall j | 0 <= j < i :: !kube[j].ready || kube[j].internalIP == ""
    ensures HealthyIP(ObservedAll(kube)) == if i < |kube| then kube[i].internalIP else ""
  {
    if i > 0 {
      PeerIsFirstReady(kube[1..], i - 1);
      assert ObservedAll(kube)[1..] == ObservedAll(kube[1..]);
    }
  }

  /** A registered node keeps its server id and is reached at its external address, or at
      the internal one when it has no other. */
  lemma NodeIsReachedAt(n: KubeNode, p: NodeVerifier.Probe, now: nat)
    ensures NodeVerifier.KnownIP(Observed(n)) == if n.externalIP != "" then n.externalIP else n.internalIP
    ensures NodeVerifier.Verified(Observed(n), p, now).serverID == n.serverID
    ensures NodeVerifier.Verified(Observed(n), p, now).privateIP == n.internalIP
  {
    NodeVerifier.ChangeKeepsIdentity(Observed(n), p, now);
  }

  /** The nodes that count as ready are those whose Ready condition is true. */
  lemma ReadyNodesAreCounted(kube: seq<KubeNode>)
    requires UniqueNames(ObservedAll(kube))
    ensures CountReady(ObservedAll(kube)) == |set i | 0 <= i < |kube| && kube[i].ready :: kube[i].name|
  {
    ReadyCount(ObservedAll(kube));
    assert ReadyNames(ObservedAll(kube)) == set i | 0 <= i < |kube| && kube[i].ready :: kube[i].name;
  }

  /** The guard counts the phases from a server's creation up to readiness. */
  lemma EarlyIsBeforeReady(p: NodePhase)
    ensures EarlyPhase(p) <==> 1 <= NodeVerifier.Position(p) < NodeVerifier.Position(Ready)
  {
  }
}
