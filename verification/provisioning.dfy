/** Creating one server and turning it into a node. Every foreign call is an
    outcome chosen in advance; each outcome fixes the steps the operator takes. */
module Provisioning {
  import opened Nodes
  import opened Steps
  import opened Interleaving
  import opened NodeGroups

  // orphan: the failed create call left a server behind.
  datatype ServerOutcome =
    | CreateFailed(orphan: bool)
    | NoAddress
    | NoServerID
    | Provisioned(serverID: int, publicIP: string, privateIP: string)

  datatype ConfigOutcome =
    | NoTalosClients
    | GenerateFailed
    | ApplyFailed
    | NotReadyInTime
    | Configured

  // One provisioning attempt: its fresh name, what the calls answer, whether a
  // clean-up deletion would succeed, and the clock reading.
  datatype Attempt = Attempt(name: string, server: ServerOutcome, config: ConfigOutcome, deleteOk: bool, at: nat)

  datatype Role = ControlPlane | Worker

  function Phase(a: Attempt, phase: NodePhase): Step {
    Update(PhaseUpdate(a.name, phase), a.at)
  }

  function DeleteEffect(name: string, ok: bool): Step {
    Do(if ok then ServerDeleted(name) else ServerDeleteFailed(name))
  }

  function FailureSteps(a: Attempt): seq<Step> {
    [Phase(a, Failed), DeleteEffect(a.name, a.deleteOk), Remove(a.name)]
  }

  function ProvisionSteps(a: Attempt): seq<Step> {
    [Phase(a, CreatingServer)] +
    if a.server.CreateFailed? then
      (if a.server.orphan then [Do(ServerCreated(a.name))] else []) + [Phase(a, Failed)]
    else
      [Do(ServerCreated(a.name)), Phase(a, WaitingForIP)] +
      if a.server.Provisioned? then [] else FailureSteps(a)
  }

  function AddressStep(a: Attempt): Step
    requires a.server.Provisioned?
  {
    Update(NodeUpdate(a.name, a.server.serverID, a.server.publicIP, a.server.privateIP, WaitingForTalosAPI), a.at)
  }

  /** After the configuration is applied. A worker that misses its deadline is
      deleted; a control plane is kept, because its etcd member exists by then. */
  function WaitSteps(role: Role, a: Attempt): seq<Step> {
    [Phase(a, RebootingWithConfig), Phase(a, WaitingForK8s)] +
    if a.config == Configured then [Do(NodeBecameReady(a.name)), Phase(a, NodeInitializing)]
    else TimeoutSteps(role, a)
  }

  function TimeoutSteps(role: Role, a: Attempt): seq<Step> {
    [Do(NodeReadyTimedOut(a.name))] + if role == Worker then FailureSteps(a) else [Phase(a, WaitingForK8s)]
  }

  function ConfigureSteps(role: Role, a: Attempt): seq<Step> {
    if a.config == NoTalosClients then [Phase(a, WaitingForK8s)]
    else if a.config == GenerateFailed || a.config == ApplyFailed then
      [Phase(a, ApplyingTalosConfig)] + FailureSteps(a)
    else
      [Phase(a, ApplyingTalosConfig), Do(ConfigApplied(a.name))] + WaitSteps(role, a)
  }

  predicate ConfigureSucceeds(a: Attempt) {
    a.config == NoTalosClients || a.config == Configured
  }

  /** Everything one attempt does, when it runs to its end. */
  function AttemptSteps(role: Role, a: Attempt): seq<Step> {
    ProvisionSteps(a) + SetupSteps(role, a)
  }

  /** What follows once the server is up. */
  function SetupSteps(role: Role, a: Attempt): seq<Step> {
    if a.server.Provisioned? then [AddressStep(a)] + ConfigureSteps(role, a) else []
  }

  predicate Succeeds(a: Attempt) {
    a.server.Provisioned? && ConfigureSucceeds(a)
  }

  // ---- Every step of an attempt concerns its own node ----------------------

  lemma FailureIsNamed(a: Attempt)
    ensures NamedBy(FailureSteps(a), a.name)
  {
  }

  lemma ProvisionIsNamed(a: Attempt)
    ensures NamedBy(ProvisionSteps(a), a.name)
  {
    FailureIsNamed(a);
    hide FailureSteps;
  }

  lemma ConfigureIsNamed(role: Role, a: Attempt)
    ensures NamedBy(ConfigureSteps(role, a), a.name)
  {
    FailureIsNamed(a);
    hide FailureSteps;
    var tail := if a.config == Configured then [Do(NodeBecameReady(a.name)), Phase(a, NodeInitializing)]
                else [Do(NodeReadyTimedOut(a.name))] +
                     if role == Worker then FailureSteps(a) else [Phase(a, WaitingForK8s)];
    assert NamedBy(tail, a.name);
    assert NamedBy(WaitSteps(role, a), a.name);
  }

  lemma AttemptIsNamed(role: Role, a: Attempt)
    ensures NamedBy(AttemptSteps(role, a), a.name)
    ensures NamedBy(SetupSteps(role, a), a.name)
  {
    ProvisionIsNamed(a);
    ConfigureIsNamed(role, a);
    hide ProvisionSteps, ConfigureSteps;
  }

  // ---- The operator's methods ----------------------------------------------

  lemma NoSetup(role: Role, a: Attempt)
    ensures !a.server.Provisioned? ==> SetupSteps(role, a) == []
  {
  }

  method MarkPhase(g: NodeGroup, a: Attempt, phase: NodePhase)
    requires g.Valid()
    modifies g, g.backing
    ensures g.Did([Phase(a, phase)])
  {
    hide Run;
    g.UpdateNodePhase(PhaseUpdate(a.name, phase), a.at);
  }

  method HandleProvisioningFailure(g: NodeGroup, a: Attempt)
    requires g.Valid()
    modifies g, g.backing
    ensures g.Did(FailureSteps(a))
  {
    hide Run, Phase;
    MarkPhase(g, a, Failed);
    g.Emit(if a.deleteOk then ServerDeleted(a.name) else ServerDeleteFailed(a.name));
    g.RemoveNodeFromStatus(a.name);
  }

  method ProvisionServer(g: NodeGroup, a: Attempt) returns (ok: bool)
    requires g.Valid()
    modifies g, g.backing
    ensures g.Did(ProvisionSteps(a))
    ensures ok == a.server.Provisioned?
  {
    hide Run, FailureSteps, Phase;
    MarkPhase(g, a, CreatingServer);
    if a.server.CreateFailed? {
      if a.server.orphan {
        g.Emit(ServerCreated(a.name));
      }
      MarkPhase(g, a, Failed);
      return false;
    }
    g.Emit(ServerCreated(a.name));
    MarkPhase(g, a, WaitingForIP);
    if !a.server.Provisioned? {
      HandleProvisioningFailure(g, a);
      return false;
    }
    return true;
  }

  method HandleTimeout(g: NodeGroup, role: Role, a: Attempt)
    requires g.Valid()
    modifies g, g.backing
    ensures g.Did(TimeoutSteps(role, a))
  {
    hide Run, FailureSteps, Phase;
    g.Emit(NodeReadyTimedOut(a.name));
    if role == Worker {
      HandleProvisioningFailure(g, a);
    } else {
      MarkPhase(g, a, WaitingForK8s);
    }
  }

  method WaitForReady(g: NodeGroup, role: Role, a: Attempt) returns (ok: bool)
    requires g.Valid() && (a.config == NotReadyInTime || a.config == Configured)
    modifies g, g.backing
    ensures g.Did(WaitSteps(role, a))
    ensures ok == (a.config == Configured)
  {
    hide Run, TimeoutSteps, Phase;
    MarkPhase(g, a, RebootingWithConfig);
    MarkPhase(g, a, WaitingForK8s);
    if a.config == NotReadyInTime {
      HandleTimeout(g, role, a);
      return false;
    }
    g.Emit(NodeBecameReady(a.name));
    MarkPhase(g, a, NodeInitializing);
    return true;
  }

  method ConfigureNode(g: NodeGroup, role: Role, a: Attempt) returns (ok: bool)
    requires g.Valid()
    modifies g, g.backing
    ensures g.Did(ConfigureSteps(role, a))
    ensures ok == ConfigureSucceeds(a)
  {
    hide Run, FailureSteps, WaitSteps, Phase;
    if a.config == NoTalosClients {
      MarkPhase(g, a, WaitingForK8s);
      return true;
    }
    MarkPhase(g, a, ApplyingTalosConfig);
    if a.config == GenerateFailed || a.config == ApplyFailed {
      HandleProvisioningFailure(g, a);
      return false;
    }
    g.Emit(ConfigApplied(a.name));
    ok := WaitForReady(g, role, a);
  }

  /** What both roles do with a server that is up: note its addresses, configure it. */
  method SetUpServer(g: NodeGroup, role: Role, a: Attempt) returns (ok: bool)
    requires g.Valid() && a.server.Provisioned?
    modifies g, g.backing
    ensures g.Did(SetupSteps(role, a))
    ensures ok == ConfigureSucceeds(a)
  {
    hide Run, ConfigureSteps;
    g.UpdateNodePhase(AddressStep(a).update, a.at);
    ok := ConfigureNode(g, role, a);
  }

  method ProvisionAndConfigureNode(g: NodeGroup, role: Role, a: Attempt) returns (ok: bool)
    requires g.Valid()
    modifies g, g.backing
    ensures g.Did(AttemptSteps(role, a))
    ensures ok == Succeeds(a)
  {
    NoSetup(role, a);
    hide Run, ProvisionSteps, SetupSteps;
    var created := ProvisionServer(g, a);
    if !created {
      return false;
    }
    ok := SetUpServer(g, role, a);
  }
}
