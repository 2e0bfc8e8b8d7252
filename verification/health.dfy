/** The health check: the list is rebuilt from the registered Kubernetes nodes. */
module Health {
  import opened Nodes
  import opened Steps
  import opened NodeGroups

  // serverID is 0 when the provider id does not parse; notReadySince is the
  // transition time of a Ready condition that is not true, if there is one.
  datatype KubeNode = KubeNode(name: string, serverID: int, internalIP: string, externalIP: string,
                               ready: bool, notReadySince: Option<nat>)

  function Observed(n: KubeNode): NodeStatus {
    NodeStatus(n.name, n.serverID, n.externalIP, n.internalIP, NoPhase, None, n.ready,
               if n.ready then None else n.notReadySince)
  }

  function ObservedAll(ns: seq<KubeNode>): (r: seq<NodeStatus>)
    ensures |r| == |ns| && forall i | 0 <= i < |ns| :: r[i] == Observed(ns[i])
  {
    seq(|ns|, i requires 0 <= i < |ns| => Observed(ns[i]))
  }

  function CountReady(ns: seq<NodeStatus>): (c: nat)
    ensures c <= |ns|
  {
    if ns == [] then 0
    else CountReady(ns[..|ns| - 1]) + if ns[|ns| - 1].healthy then 1 else 0
  }

  method BuildNodeGroupStatus(g: NodeGroup, kube: seq<KubeNode>) returns (ready: nat, unhealthy: nat)
    requires g.Valid()
    modifies g`backing, g`length, g`pins, g`start, g`trace
    ensures g.Valid() && fresh(g.backing) && g.pins == g.backing
    ensures g.List() == ObservedAll(kube) && g.effects == old(g.effects)
    ensures g.View() == State(Mem(ObservedAll(kube), |kube|, ObservedAll(kube), true), g.effects)
    ensures ready == CountReady(ObservedAll(kube)) && unhealthy == |kube| - ready
  {
    var nodes: seq<NodeStatus> := [];
    ready, unhealthy := 0, 0;
    for i := 0 to |kube|
      invariant nodes == ObservedAll(kube)[..i]
      invariant ready == CountReady(nodes) && unhealthy == i - ready
    {
      assert (nodes + [Observed(kube[i])])[..i] == nodes;
      nodes := nodes + [Observed(kube[i])];
      if kube[i].ready {
        ready := ready + 1;
      } else {
        unhealthy := unhealthy + 1;
      }
    }
    assert ObservedAll(kube)[..|kube|] == ObservedAll(kube);
    g.Rebuild(nodes);
  }

  // ---- The early-provisioning guard ------------------------------------------

  predicate EarlyPhase(p: NodePhase) {
    p in {CreatingServer, WaitingForIP, WaitingForTalosAPI, ApplyingTalosConfig,
          RebootingWithConfig, WaitingForK8s, NodeInitializing}
  }

  function CountEarly(ns: seq<NodeStatus>): (c: nat)
    ensures c <= |ns|
  {
    if ns == [] then 0
    else CountEarly(ns[..|ns| - 1]) + if EarlyPhase(ns[|ns| - 1].phase) then 1 else 0
  }

  method CountWorkersInEarlyProvisioning(nodes: seq<NodeStatus>) returns (count: nat)
    ensures count == CountEarly(nodes)
  {
    count := 0;
    for i := 0 to |nodes|
      invariant count == CountEarly(nodes[..i])
    {
      assert nodes[..i + 1][..i] == nodes[..i];
      if EarlyPhase(nodes[i].phase) {
        count := count + 1;
      }
    }
    assert nodes[..|nodes|] == nodes;
  }

  lemma {:induction false} NoneEarly(ns: seq<NodeStatus>)
    ensures CountEarly(ns) == 0 <==> forall n | n in ns :: !EarlyPhase(n.phase)
  {
    if ns != [] {
      var k := |ns| - 1;
      NoneEarly(ns[..k]);
      assert ns == ns[..k] + [ns[k]];
    }
  }

  /** A rebuilt list carries no phases, so the guard against duplicate creation
      cannot fire on it. */
  lemma GuardNeverFiresAfterRebuild(kube: seq<KubeNode>)
    ensures CountEarly(ObservedAll(kube)) == 0
  {
    NoneEarly(ObservedAll(kube));
  }
}
