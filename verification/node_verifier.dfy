/** Reading a node's real state from the cloud, Talos and Kubernetes, and moving
    its recorded phase accordingly. */
module NodeVerifier {
  import opened Nodes
  import opened Steps
  import opened NodeGroups
  import opened WorkerPass

  datatype Server = Server(status: string, publicIP: string)

  datatype TalosState = TalosState(maintenance: bool, configured: bool, kubelet: bool)

  // What the foreign calls about one node answer; kube: the node object's Ready condition.
  datatype Probe = Probe(server: Option<Server>, reachable: bool, talos: Option<TalosState>, kube: Option<bool>)

  datatype StateInfo = StateInfo(
    serverExists: bool,
    serverStatus: string,
    serverIP: string,
    talosReachable: bool,
    maintenance: bool,
    configured: bool,
    kubelet: bool,
    nodeExists: bool,
    nodeReady: bool)

  function VerifyState(p: Probe, knownIP: string): StateInfo {
    var ip := if p.server.Some? && p.server.value.publicIP != "" then p.server.value.publicIP else knownIP;
    var reachable := ip != "" && p.reachable;
    var talos := if reachable && p.talos.Some? then p.talos.value else TalosState(false, false, false);
    StateInfo(p.server.Some?, if p.server.Some? then p.server.value.status else "", ip,
              reachable, talos.maintenance, talos.configured, talos.kubelet,
              p.kube.Some?, p.kube.Some? && p.kube.value)
  }

  function DeterminePhase(i: StateInfo): NodePhase {
    if i.nodeExists && i.nodeReady then Ready
    else if i.nodeExists then (if i.kubelet then NodeInitializing else WaitingForK8s)
    else if i.configured then (if i.kubelet then WaitingForK8s else RebootingWithConfig)
    else if i.maintenance then WaitingForTalosAPI
    else if i.talosReachable then ApplyingTalosConfig
    else if i.serverExists && i.serverStatus == "running" then WaitingForTalosAPI
    else if i.serverExists && i.serverStatus == "starting" then WaitingForIP
    else if i.serverExists then CreatingServer
    else Failed
  }

  function PhaseOrder(p: NodePhase): Option<nat> {
    match p
    case NoPhase => None
    case CreatingServer => Some(1)
    case WaitingForIP => Some(2)
    case WaitingForTalosAPI => Some(3)
    case ApplyingTalosConfig => Some(4)
    case RebootingWithConfig => Some(5)
    case WaitingForK8s => Some(6)
    case NodeInitializing => Some(7)
    case Ready => Some(8)
    case Unhealthy => Some(9)
    case Draining => Some(10)
    case RemovingFromEtcd => Some(11)
    case DeletingServer => Some(12)
    case Failed => Some(13)
  }

  predicate ShouldUpdatePhase(current: NodePhase, next: NodePhase) {
    || next == Failed
    || next == Ready
    || PhaseOrder(current).None?
    || PhaseOrder(next).None?
    || PhaseOrder(next).value > PhaseOrder(current).value
  }

  function KnownIP(n: NodeStatus): string {
    if n.publicIP != "" then n.publicIP else n.privateIP
  }

  /** The update a look at a node leads to, if any. */
  function Finding(n: NodeStatus, p: Probe): Option<NodeUpdate> {
    var info := VerifyState(p, KnownIP(n));
    var actual := DeterminePhase(info);
    if n.phase == Failed || n.phase == DeletingServer then None
    else if actual != n.phase && ShouldUpdatePhase(n.phase, actual) then
      Some(NodeUpdate(n.name, 0, info.serverIP, n.privateIP, actual))
    else None
  }

  /** The entry after its node was looked at. */
  function Verified(n: NodeStatus, p: Probe, now: nat): NodeStatus {
    var u := Finding(n, p);
    if u.Some? then Touch(n, u.value, now) else n
  }

  function VerifiedAll(list: seq<NodeStatus>, probes: seq<Probe>, now: nat): (r: seq<NodeStatus>)
    requires |list| == |probes|
    ensures |r| == |list|
  {
    seq(|list|, i requires 0 <= i < |list| => Verified(list[i], probes[i], now))
  }

  /** One look at entry i. The update goes to the first entry of that name. */
  function VerifyAt(list: seq<NodeStatus>, i: nat, p: Probe, now: nat): (r: seq<NodeStatus>)
    requires i < |list|
    ensures |r| == |list|
  {
    var u := Finding(list[i], p);
    if u.Some? then Upsert(list, u.value, now) else list
  }

  /** The first k looks, each at the list the one before it left. */
  function VerifyEach(list: seq<NodeStatus>, probes: seq<Probe>, now: nat, k: nat): (r: seq<NodeStatus>)
    requires |list| == |probes| && k <= |list|
    ensures |r| == |list|
  {
    if k == 0 then list else VerifyAt(VerifyEach(list, probes, now, k - 1), k - 1, probes[k - 1], now)
  }

  lemma LookIsOwn(list: seq<NodeStatus>, i: nat, p: Probe, now: nat)
    requires UniqueNames(list) && i < |list|
    ensures VerifyAt(list, i, p, now) == list[i := Verified(list[i], p, now)]
  {
    hide VerifyState, DeterminePhase, ShouldUpdatePhase;
    FindUnique(list, i);
  }

  lemma {:induction false} PartIsSeparate(list: seq<NodeStatus>, probes: seq<Probe>, now: nat, k: nat)
    requires |list| == |probes| && k <= |list| && UniqueNames(list)
    ensures VerifyEach(list, probes, now, k) == VerifiedAll(list[..k], probes[..k], now) + list[k..]
  {
    hide VerifyAt, Verified, UniqueNames;
    if k > 0 {
      PartIsSeparate(list, probes, now, k - 1);
      PartVerified(list, probes, k - 1, now);
      LookIsOwn(VerifyEach(list, probes, now, k - 1), k - 1, probes[k - 1], now);
    }
  }

  /** Walking the list that is being edited leaves every entry of a uniquely named list
      as looking at it alone would. */
  lemma VerifyEachIsSeparate(list: seq<NodeStatus>, probes: seq<Probe>, now: nat)
    requires |list| == |probes| && UniqueNames(list)
    ensures VerifyEach(list, probes, now, |list|) == VerifiedAll(list, probes, now)
  {
    PartIsSeparate(list, probes, now, |list|);
    hide *;
    assert list[..|list|] == list && probes[..|list|] == probes && list[|list|..] == [];
  }

  method VerifyNodes(g: NodeGroup, probes: seq<Probe>, now: nat)
    requires g.Valid() && |probes| == g.length
    modifies g`backing, g`length, g`trace, g.backing
    ensures g.Valid() && g.effects == old(g.effects)
    ensures g.List() == VerifyEach(old(g.List()), probes, now, |probes|)
  {
    ghost var list := g.List();
    for i := 0 to |probes|
      invariant g.Valid() && (g.backing == old(g.backing) || fresh(g.backing)) && g.effects == old(g.effects)
      invariant g.List() == VerifyEach(list, probes, now, i)
    {
      hide Run, VerifyAt;
      VerifyNode(g, i, probes[i], now);
    }
  }

  lemma PartVerified(list: seq<NodeStatus>, probes: seq<Probe>, i: nat, now: nat)
    requires |list| == |probes| && i < |list| && UniqueNames(list)
    ensures var part := VerifiedAll(list[..i], probes[..i], now) + list[i..];
            && UniqueNames(part) && part[i] == list[i]
            && part[i := Verified(list[i], probes[i], now)] ==
               VerifiedAll(list[..i + 1], probes[..i + 1], now) + list[i + 1..]
  {
    var part := VerifiedAll(list[..i], probes[..i], now) + list[i..];
    forall j | 0 <= j < |list| ensures part[j].name == list[j].name {
      if j < i { KeepsName(list[j], probes[j], now); }
    }
  }

  lemma KeepsName(n: NodeStatus, p: Probe, now: nat)
    ensures Verified(n, p, now).name == n.name
  {
  }

  method VerifyNode(g: NodeGroup, i: nat, p: Probe, now: nat)
    requires g.Valid() && i < g.length
    modifies g`backing, g`length, g`trace, g.backing
    ensures g.Valid() && (g.backing == old(g.backing) || fresh(g.backing)) && g.pins == old(g.pins)
    ensures g.List() == VerifyAt(old(g.List()), i, p, now) && g.effects == old(g.effects)
  {
    hide Run, RunList;
    var node := g.backing[i];
    if node.phase == Failed || node.phase == DeletingServer {
      return;
    }
    var nodeIP := node.publicIP;
    if nodeIP == "" {
      nodeIP := node.privateIP;
    }
    var info := VerifyState(p, nodeIP);
    var actual := DeterminePhase(info);
    if actual != node.phase && ShouldUpdatePhase(node.phase, actual) {
      var u := NodeUpdate(node.name, 0, info.serverIP, node.privateIP, actual);
      hide VerifyState, DeterminePhase, ShouldUpdatePhase;
      ghost var trace, before := g.trace, g.View();
      assert Contents(before.mem) == g.List();
      g.UpdateNodePhase(u, now);
      DidMeans(g, trace, before, [Update(u, now)]);
      OneUpdate(old(g.List()), u, now);
    }
  }

  lemma OneUpdate(list: seq<NodeStatus>, u: NodeUpdate, now: nat)
    ensures RunList(list, [Update(u, now)]) == Upsert(list, u, now)
  {
    assert RunList(list, [Update(u, now)][..0]) == list;
  }

  // ---- Forward only ---------------------------------------------------------------

  // NoPhase before everything, then the order of provisioning.
  function Position(p: NodePhase): nat {
    if p == NoPhase then 0 else PhaseOrder(p).value
  }

  predicate Provisioning(p: NodePhase) {
    1 <= Position(p) <= 8
  }

  /** A change moves a node forward, with one exception: a node being drained or
      removed, or marked unhealthy, that Kubernetes still reports ready. */
  lemma ChangesGoForward(n: NodeStatus, p: Probe, now: nat)
    ensures var after := Verified(n, p, now);
            && (after != n ==> after.phase != n.phase)
            && (after.phase != n.phase ==>
                  (Position(after.phase) > Position(n.phase) <==>
                   !(n.phase in {Unhealthy, Draining, RemovingFromEtcd} && after.phase == Ready)))
            && (Provisioning(n.phase) ==> Provisioning(after.phase) || after.phase == Failed)
            && (n.phase in {Failed, DeletingServer} ==> after == n)
  {
  }

  /** What is found is recorded when it lies ahead or is Ready or Failed, and otherwise the
      recorded phase stays; a recorded change makes the node healthy exactly in Ready. */
  lemma FindingsAreRecorded(n: NodeStatus, p: Probe, now: nat)
    requires n.phase !in {Failed, DeletingServer}
    ensures var found := DeterminePhase(VerifyState(p, KnownIP(n)));
            var after := Verified(n, p, now);
            var forward := found in {Ready, Failed} || Position(found) > Position(n.phase);
            && after.phase == (if forward then found else n.phase)
            && (after.phase != n.phase ==> after.transitionTime == Some(now) && (after.healthy <==> found == Ready))
  {
  }

  /** Ready means that Kubernetes says so; Failed means that nothing of the node can be
      found: no node object, no answer from Talos, no server. */
  lemma ReadyAndFailedAreExact(p: Probe, knownIP: string)
    ensures var phase := DeterminePhase(VerifyState(p, knownIP));
            && (phase == Ready <==> p.kube == Some(true))
            && (phase == Failed <==> p.kube == None && p.server == None && !(knownIP != "" && p.reachable))
            && (phase in {NodeInitializing, WaitingForK8s} ==> p.kube == Some(false) || p.talos.Some?)
  {
  }

  // The address a node is asked at, and whether it answers there.
  function AskedAt(p: Probe, knownIP: string): string {
    if p.server.Some? && p.server.value.publicIP != "" then p.server.value.publicIP else knownIP
  }

  predicate Reaches(p: Probe, knownIP: string) {
    AskedAt(p, knownIP) != "" && p.reachable
  }

  // Without an answer from Talos nothing is known of the node.
  function TalosOf(p: Probe, knownIP: string): TalosState {
    if Reaches(p, knownIP) && p.talos.Some? then p.talos.value else TalosState(false, false, false)
  }

  predicate HasStatus(p: Probe, status: string) {
    p.server.Some? && p.server.value.status == status
  }

  /** When each phase is found: Kubernetes is believed first, then Talos, then the cloud. */
  lemma FoundPhasesAreExact(p: Probe, knownIP: string)
    ensures var phase := DeterminePhase(VerifyState(p, knownIP));
            var reached := Reaches(p, knownIP);
            var talos := TalosOf(p, knownIP);
            && (phase == Ready <==> p.kube == Some(true))
            && (phase == NodeInitializing <==> p.kube == Some(false) && talos.kubelet)
            && (phase == WaitingForK8s <==>
                  (p.kube == Some(false) && !talos.kubelet) || (p.kube == None && talos.configured && talos.kubelet))
            && (phase == RebootingWithConfig <==> p.kube == None && talos.configured && !talos.kubelet)
            && (phase == ApplyingTalosConfig <==> p.kube == None && reached && !talos.configured && !talos.maintenance)
            && (phase == WaitingForTalosAPI <==>
                  p.kube == None && !talos.configured && (talos.maintenance || (!reached && HasStatus(p, "running"))))
            && (phase == WaitingForIP <==> p.kube == None && !reached && HasStatus(p, "starting"))
            && (phase == CreatingServer <==>
                  p.kube == None && !reached && p.server.Some? && !HasStatus(p, "running") && !HasStatus(p, "starting"))
            && (phase == Failed <==> p.kube == None && !reached && p.server == None)
  {
    assert "running" != "starting" by { assert "running"[0] != "starting"[0]; }
  }

  /** A change keeps the node's identity. Its public address becomes the one the node
      was reached at, which is the private one when it has no other. */
  lemma ChangeKeepsIdentity(n: NodeStatus, p: Probe, now: nat)
    ensures var after := Verified(n, p, now);
            && after.name == n.name && after.serverID == n.serverID && after.privateIP == n.privateIP
            && (after != n && p.server.Some? && p.server.value.publicIP != "" ==>
                  after.publicIP == p.server.value.publicIP)
            && (after != n && (p.server == None || p.server.value.publicIP == "") ==>
                  after.publicIP == if n.publicIP != "" then n.publicIP else n.privateIP)
  {
    hide DeterminePhase, ShouldUpdatePhase;
  }

  /** A run of verification passes over one list. */
  ghost predicate Passes(lists: seq<seq<NodeStatus>>, probes: seq<seq<Probe>>, times: seq<nat>) {
    && |lists| == |probes| + 1 == |times| + 1
    && forall k | 0 <= k < |probes| ::
         |probes[k]| == |lists[k]| && lists[k + 1] == VerifiedAll(lists[k], probes[k], times[k])
  }

  lemma {:induction false} PassesKeepNames(lists: seq<seq<NodeStatus>>, probes: seq<seq<Probe>>, times: seq<nat>,
                                           k: nat)
    requires Passes(lists, probes, times) && k < |lists|
    ensures |lists[k]| == |lists[0]|
    ensures forall i | 0 <= i < |lists[0]| :: lists[k][i].name == lists[0][i].name
  {
    if k > 0 {
      PassesKeepNames(lists, probes, times, k - 1);
      forall i | 0 <= i < |lists[0]| ensures lists[k][i].name == lists[k - 1][i].name {
        KeepsName(lists[k - 1][i], probes[k - 1][i], times[k - 1]);
      }
    }
  }

  /** How many of the first k passes changed the phase of node i. */
  ghost function Changes(lists: seq<seq<NodeStatus>>, i: nat, k: nat): nat
    requires k < |lists| && forall j | 0 <= j < |lists| :: i < |lists[j]|
  {
    if k == 0 then 0
    else Changes(lists, i, k - 1) + if lists[k][i].phase != lists[k - 1][i].phase then 1 else 0
  }

  // Failed counts as the place after Ready.
  function Place(p: NodePhase): nat {
    if p == Failed then 9 else Position(p)
  }

  /** A node between server creation and readiness changes at most eight times,
      however long the run, and a failed node never changes again. */
  lemma {:induction false} AtMostEightChanges(lists: seq<seq<NodeStatus>>, probes: seq<seq<Probe>>, times: seq<nat>,
                                              i: nat, k: nat)
    requires Passes(lists, probes, times) && k < |lists| && i < |lists[0]|
    requires Provisioning(lists[0][i].phase) || lists[0][i].phase == Failed
    requires forall j | 0 <= j < |lists| :: i < |lists[j]|
    ensures Provisioning(lists[k][i].phase) || lists[k][i].phase == Failed
    ensures Changes(lists, i, k) <= Place(lists[k][i].phase) - Place(lists[0][i].phase) <= 8
  {
    if k > 0 {
      AtMostEightChanges(lists, probes, times, i, k - 1);
      PassesKeepNames(lists, probes, times, k - 1);
      ChangesGoForward(lists[k - 1][i], probes[k - 1][i], times[k - 1]);
      hide Verified;
    }
  }

  function Seen(status: string, reachable: bool, talos: TalosState, kube: Option<bool>): Probe {
    Probe(Some(Server(status, "192.0.2.7")), reachable, Some(talos), kube)
  }

  /** What the probes answer at each stage of a node's life, from a server that is
      there but neither starting nor running to one that is gone. */
  function StageProbe(stage: nat): Probe {
    var off, idle, up := TalosState(false, false, false), TalosState(false, true, false), TalosState(false, true, true);
    match stage
    case 1 => Seen("off", false, off, None)
    case 2 => Seen("starting", false, off, None)
    case 3 => Seen("running", false, off, None)
    case 4 => Seen("running", true, off, None)
    case 5 => Seen("running", true, idle, None)
    case 6 => Seen("running", true, up, None)
    case 7 => Seen("running", true, up, Some(false))
    case 8 => Seen("running", true, up, Some(true))
    case _ => Probe(None, false, None, None)
  }

  function PhaseAt(stage: nat): NodePhase {
    match stage
    case 1 => CreatingServer
    case 2 => WaitingForIP
    case 3 => WaitingForTalosAPI
    case 4 => ApplyingTalosConfig
    case 5 => RebootingWithConfig
    case 6 => WaitingForK8s
    case 7 => NodeInitializing
    case 8 => Ready
    case _ => Failed
  }

  lemma StageReads(stage: nat, ip: string)
    requires 1 <= stage <= 9
    ensures DeterminePhase(VerifyState(StageProbe(stage), ip)) == PhaseAt(stage)
    ensures Place(PhaseAt(stage)) == stage
  {
  }

  /** Eight changes do happen: each stage of a life moves the node one place on. */
  lemma EightChangesHappen(n: NodeStatus, stage: nat, now: nat)
    requires 1 <= stage <= 8 && n.phase == PhaseAt(stage)
    ensures Verified(n, StageProbe(stage), now) == n
    ensures Verified(n, StageProbe(stage + 1), now).phase == PhaseAt(stage + 1)
    ensures Place(PhaseAt(stage)) == stage && Place(PhaseAt(stage + 1)) == stage + 1
  {
    StageReads(stage, KnownIP(n));
    StageReads(stage + 1, KnownIP(n));
    hide VerifyState, DeterminePhase, StageProbe;
  }
}
