/** The order in which one attempt marks its phases and makes its calls. */
module AttemptOrder {
  import opened Nodes
  import opened Steps
  import opened Provisioning
  import opened Healing
  import opened ControlPlaneHealing
  import NodeVerifier

  // How late a step belongs: phases and calls are ranked together.
  function Rank(s: Step): nat {
    match s
    case Update(u, _) => 10 * NodeVerifier.Position(u.phase)
    case Do(ServerCreated(_)) => 15
    case Do(ConfigApplied(_)) => 45
    case Do(NodeBecameReady(_)) => 65
    case Do(NodeReadyTimedOut(_)) => 65
    case Do(Drained(_)) => 105
    case Do(EtcdMemberRemoved(_, _)) => 115
    case Do(NodeObjectDeleted(_)) => 125
    case Do(_) => 135
    case Remove(_) => 140
  }

  ghost predicate Ascends(steps: seq<Step>, bound: nat) {
    && (forall i, j | 0 <= i < j < |steps| :: Rank(steps[i]) < Rank(steps[j]))
    && (forall i | 0 <= i < |steps| :: Rank(steps[i]) <= bound)
  }

  lemma AscendsTogether(a: seq<Step>, b: seq<Step>, bound: nat, last: nat)
    requires Ascends(a, bound) && Ascends(b, last) && bound <= last && forall s | s in b :: Rank(s) > bound
    ensures Ascends(a + b, last)
  {
    var all := a + b;
    forall i, j | 0 <= i < j < |all| ensures Rank(all[i]) < Rank(all[j]) {
      if i < |a| <= j { assert b[j - |a|] in b; }
    }
  }

  lemma FailureAscends(a: Attempt)
    ensures Ascends(FailureSteps(a), 140) && forall s | s in FailureSteps(a) :: Rank(s) >= 130
  {
  }

  lemma ProvisionAscends(a: Attempt)
    ensures Ascends(ProvisionSteps(a), if a.server.Provisioned? then 20 else 140)
  {
    FailureAscends(a);
    var before := [Phase(a, CreatingServer), Do(ServerCreated(a.name)), Phase(a, WaitingForIP)];
    if !a.server.CreateFailed? && !a.server.Provisioned? {
      assert ProvisionSteps(a) == before + FailureSteps(a);
      hide FailureSteps;
      assert Ascends(before, 20);
      AscendsTogether(before, FailureSteps(a), 20, 140);
    } else if a.server.Provisioned? {
      assert ProvisionSteps(a) == before;
    }
  }

  // The steps up to a missed deadline.
  function UntilDeadline(a: Attempt): seq<Step> {
    [Phase(a, ApplyingTalosConfig), Do(ConfigApplied(a.name)), Phase(a, RebootingWithConfig),
     Phase(a, WaitingForK8s), Do(NodeReadyTimedOut(a.name))]
  }

  lemma DeadlineAscends(a: Attempt)
    ensures Ascends(UntilDeadline(a), 65) && forall s | s in UntilDeadline(a) :: Rank(s) > 30
  {
  }

  lemma SuccessAscends(role: Role, a: Attempt)
    requires a.config == Configured || a.config == NoTalosClients
    ensures Ascends(ConfigureSteps(role, a), 140) && forall s | s in ConfigureSteps(role, a) :: Rank(s) > 30
  {
    if a.config == Configured {
      assert ConfigureSteps(role, a) ==
             [Phase(a, ApplyingTalosConfig), Do(ConfigApplied(a.name)), Phase(a, RebootingWithConfig),
              Phase(a, WaitingForK8s), Do(NodeBecameReady(a.name)), Phase(a, NodeInitializing)];
    }
  }

  lemma ApplyingAscends(a: Attempt)
    ensures Ascends([Phase(a, ApplyingTalosConfig)], 40)
    ensures forall s | s in [Phase(a, ApplyingTalosConfig)] :: Rank(s) > 30
  {
  }

  lemma ConfigureAscends(role: Role, a: Attempt)
    requires !(role == ControlPlane && a.config == NotReadyInTime)
    ensures Ascends(ConfigureSteps(role, a), 140)
    ensures forall s | s in ConfigureSteps(role, a) :: Rank(s) > 30
  {
    var fail, steps := FailureSteps(a), ConfigureSteps(role, a);
    var applying := [Phase(a, ApplyingTalosConfig)];
    if a.config == GenerateFailed || a.config == ApplyFailed {
      assert steps == applying + fail;
      hide *;
      FailureAscends(a);
      ApplyingAscends(a);
      AscendsTogether(applying, fail, 40, 140);
    } else if a.config == NotReadyInTime {
      assert steps == UntilDeadline(a) + fail;
      hide *;
      FailureAscends(a);
      DeadlineAscends(a);
      AscendsTogether(UntilDeadline(a), fail, 65, 140);
    } else {
      SuccessAscends(role, a);
    }
  }

  /** An attempt marks its phases in the order of a node's life, each once, and makes every
      call between the phases it belongs to: the server after CreatingServer, the
      configuration after ApplyingTalosConfig, readiness after WaitingForK8s, and the
      deletion and removal after Failed. A control plane that misses its deadline marks
      WaitingForK8s once more. */
  lemma AttemptAscends(role: Role, a: Attempt)
    ensures var steps := AttemptSteps(role, a);
            if role == ControlPlane && a.server.Provisioned? && a.config == NotReadyInTime then
              && Ascends(steps[..|steps| - 1], 65) && |steps| > 1
              && steps[|steps| - 1] == Phase(a, WaitingForK8s)
            else Ascends(steps, 140)
  {
    ProvisionAscends(a);
    var p, steps := ProvisionSteps(a), AttemptSteps(role, a);
    hide ProvisionSteps, ConfigureSteps;
    if a.server.Provisioned? {
      var c := ConfigureSteps(role, a);
      assert steps == p + ([AddressStep(a)] + c);
      AddressAscends(a);
      hide AttemptSteps, AddressStep, Rank, Ascends;
      if role == ControlPlane && a.config == NotReadyInTime {
        TimeoutAscends(a);
        var front := c[..|c| - 1];
        assert steps[..|steps| - 1] == p + ([AddressStep(a)] + front);
        AscendsTogether([AddressStep(a)], front, 30, 65);
        AscendsTogether(p, [AddressStep(a)] + front, 20, 65);
      } else {
        ConfigureAscends(role, a);
        AscendsTogether([AddressStep(a)], c, 30, 140);
        AscendsTogether(p, [AddressStep(a)] + c, 20, 140);
      }
    } else {
      assert steps == p;
    }
  }

  lemma AddressAscends(a: Attempt)
    requires a.server.Provisioned?
    ensures Ascends([AddressStep(a)], 30) && Rank(AddressStep(a)) == 30
  {
  }

  lemma TimeoutAscends(a: Attempt)
    requires a.config == NotReadyInTime
    ensures var c := ConfigureSteps(ControlPlane, a);
            && |c| == 6 && c[5] == Phase(a, WaitingForK8s) && Ascends(c[..5], 65)
            && forall s | s in c[..5] :: Rank(s) > 30
  {
    assert ConfigureSteps(ControlPlane, a)[..5] == UntilDeadline(a);
    DeadlineAscends(a);
    hide Rank;
  }

  // ---- Taking a node out -------------------------------------------------------------------

  /** A worker is drained while it is marked Draining, and its node object and then its
      server are deleted while it is marked DeletingServer; that is where a refusal leaves it. */
  lemma DrainAscends(name: string, h: Heal)
    ensures var steps := DrainSteps(name, h);
            && Ascends(steps, 135)
            && steps[..2] == [Update(PhaseUpdate(name, Draining), h.at), Do(Drained(name))]
            && Update(PhaseUpdate(name, DeletingServer), h.at) in steps
            && (NodeObjectRefused(h) ==> |steps| == 3)
            && (!NodeObjectRefused(h) && h.nodeFound ==> Do(NodeObjectDeleted(name)) in steps)
            && (!NodeObjectRefused(h) && name != "" ==> DeleteEffect(name, h.serverDeleteOk) in steps)
  {
    var steps := DrainSteps(name, h);
    assert steps[2] == Update(PhaseUpdate(name, DeletingServer), h.at);
    if !NodeObjectRefused(h) {
      if h.nodeFound { assert steps[3] == Do(NodeObjectDeleted(name)); }
      if name != "" { assert steps[|steps| - 1] == DeleteEffect(name, h.serverDeleteOk); }
    }
  }

  /** A control plane is marked RemovingFromEtcd while its member is removed, and
      DeletingServer before anything of it is deleted. */
  lemma RemovalAscends(list: seq<NodeStatus>, victim: NodeStatus, h: CPHeal)
    ensures var steps := EtcdSteps(list, victim.name, victim.privateIP, h) + DeleteSteps(victim.name, h.rest);
            && Ascends(steps, 135)
            && steps[0] == Update(PhaseUpdate(victim.name, RemovingFromEtcd), h.rest.at)
            && Update(PhaseUpdate(victim.name, DeletingServer), h.rest.at) in steps
  {
    var etcd, delete := EtcdSteps(list, victim.name, victim.privateIP, h), DeleteSteps(victim.name, h.rest);
    hide RemovedMember, ApplyList;
    assert Ascends(etcd, 115);
    assert Ascends(delete, 135) && forall s | s in delete :: Rank(s) > 115;
    assert (etcd + delete)[|etcd|] == delete[0] == Update(PhaseUpdate(victim.name, DeletingServer), h.rest.at);
    hide EtcdSteps, DeleteSteps, Rank, Ascends;
    AscendsTogether(etcd, delete, 115, 135);
  }

  // ---- What an attempt gets to ----------------------------------------------------------

  predicate Marks(steps: seq<Step>, a: Attempt, phase: NodePhase) {
    exists s | s in steps :: s.Update? && s.update.name == a.name && s.update.phase == phase
  }

  // The server and its configuration: how far the calls let the attempt come.
  predicate Applied(a: Attempt) {
    a.server.Provisioned? && (a.config == NotReadyInTime || a.config == Configured)
  }

  // The attempt fails and cleans up after itself, or has nothing to clean up.
  predicate GivenUp(role: Role, a: Attempt) {
    !Succeeds(a) && !(role == ControlPlane && Applied(a))
  }

  lemma MarksConcat(x: seq<Step>, y: seq<Step>, a: Attempt, phase: NodePhase)
    ensures Marks(x + y, a, phase) <==> Marks(x, a, phase) || Marks(y, a, phase)
  {
    assert forall s :: s in x + y <==> s in x || s in y;
  }

  lemma FailureVisits(a: Attempt, phase: NodePhase)
    ensures Marks(FailureSteps(a), a, phase) <==> phase == Failed
  {
    assert FailureSteps(a)[0] == Phase(a, Failed);
  }

  lemma OneMark(a: Attempt, s: Step, phase: NodePhase)
    ensures Marks([s], a, phase) <==> s.Update? && s.update.name == a.name && s.update.phase == phase
    ensures !Marks([], a, phase)
  {
    assert [s][0] == s;
  }

  lemma ProvisionVisits(a: Attempt, phase: NodePhase)
    ensures Marks(ProvisionSteps(a), a, phase) <==>
            || phase == CreatingServer || (phase == WaitingForIP && !a.server.CreateFailed?)
            || (phase == Failed && !a.server.Provisioned?)
  {
    FailureVisits(a, phase);
    var first, failed := Phase(a, CreatingServer), Phase(a, Failed);
    var made, ip := Do(ServerCreated(a.name)), Phase(a, WaitingForIP);
    OneMark(a, first, phase);
    OneMark(a, failed, phase);
    OneMark(a, made, phase);
    OneMark(a, ip, phase);
    hide Marks, FailureSteps;
    if a.server.CreateFailed? {
      var orphan := if a.server.orphan then [made] else [];
      assert ProvisionSteps(a) == [first] + (orphan + [failed]);
      MarksConcat(orphan, [failed], a, phase);
      MarksConcat([first], orphan + [failed], a, phase);
    } else {
      var rest := if a.server.Provisioned? then [] else FailureSteps(a);
      assert ProvisionSteps(a) == [first] + ([made] + ([ip] + rest));
      MarksConcat([ip], rest, a, phase);
      MarksConcat([made], [ip] + rest, a, phase);
      MarksConcat([first], [made] + ([ip] + rest), a, phase);
    }
  }

  lemma WaitVisits(role: Role, a: Attempt, phase: NodePhase)
    requires a.config == NotReadyInTime || a.config == Configured
    ensures Marks(WaitSteps(role, a), a, phase) <==>
            || phase == RebootingWithConfig || phase == WaitingForK8s
            || (phase == NodeInitializing && a.config == Configured)
            || (phase == Failed && a.config == NotReadyInTime && role == Worker)
  {
    FailureVisits(a, phase);
    var s1, s2, s3 := Phase(a, RebootingWithConfig), Phase(a, WaitingForK8s), Phase(a, NodeInitializing);
    var d := if a.config == Configured then Do(NodeBecameReady(a.name)) else Do(NodeReadyTimedOut(a.name));
    OneMark(a, s1, phase);
    OneMark(a, s2, phase);
    OneMark(a, s3, phase);
    OneMark(a, d, phase);
    hide Marks, FailureSteps;
    var rest := if a.config == Configured then [s3] else if role == Worker then FailureSteps(a) else [s2];
    assert WaitSteps(role, a) == [s1] + ([s2] + ([d] + rest));
    MarksConcat([d], rest, a, phase);
    MarksConcat([s2], [d] + rest, a, phase);
    MarksConcat([s1], [s2] + ([d] + rest), a, phase);
  }

  lemma ConfigureVisits(role: Role, a: Attempt, phase: NodePhase)
    ensures Marks(ConfigureSteps(role, a), a, phase) <==>
            var ran := a.config == NotReadyInTime || a.config == Configured;
            || (phase == ApplyingTalosConfig && a.config != NoTalosClients)
            || (phase == RebootingWithConfig && ran)
            || (phase == WaitingForK8s && (ran || a.config == NoTalosClients))
            || (phase == NodeInitializing && a.config == Configured)
            || (phase == Failed && a.config != NoTalosClients && a.config != Configured &&
                !(ran && role == ControlPlane))
  {
    FailureVisits(a, phase);
    var applying, applied, waiting := Phase(a, ApplyingTalosConfig), Do(ConfigApplied(a.name)), Phase(a, WaitingForK8s);
    OneMark(a, applying, phase);
    OneMark(a, applied, phase);
    OneMark(a, waiting, phase);
    if a.config == NotReadyInTime || a.config == Configured {
      WaitVisits(role, a, phase);
      assert ConfigureSteps(role, a) == [applying] + ([applied] + WaitSteps(role, a));
      hide Marks, WaitSteps, ConfigureSteps;
      MarksConcat([applied], WaitSteps(role, a), a, phase);
      MarksConcat([applying], [applied] + WaitSteps(role, a), a, phase);
    } else if a.config != NoTalosClients {
      hide Marks, FailureSteps;
      MarksConcat([applying], FailureSteps(a), a, phase);
    }
  }

  /** Which phases an attempt goes through, by how far its calls let it come. */
  lemma AttemptVisits(role: Role, a: Attempt, phase: NodePhase)
    ensures Marks(AttemptSteps(role, a), a, phase) <==>
            || phase == CreatingServer
            || (phase == WaitingForIP && !a.server.CreateFailed?)
            || (phase == WaitingForTalosAPI && a.server.Provisioned?)
            || (phase == ApplyingTalosConfig && a.server.Provisioned? && a.config != NoTalosClients)
            || (phase == RebootingWithConfig && Applied(a))
            || (phase == WaitingForK8s && a.server.Provisioned? && (Applied(a) || a.config == NoTalosClients))
            || (phase == NodeInitializing && Succeeds(a) && a.config == Configured)
            || (phase == Failed && GivenUp(role, a))
  {
    ProvisionVisits(a, phase);
    ConfigureVisits(role, a, phase);
    var p, c := ProvisionSteps(a), ConfigureSteps(role, a);
    if a.server.Provisioned? {
      var at := AddressStep(a);
      OneMark(a, at, phase);
      hide Marks, ProvisionSteps, ConfigureSteps;
      assert AttemptSteps(role, a) == p + ([at] + c);
      MarksConcat([at], c, a, phase);
      MarksConcat(p, [at] + c, a, phase);
    } else {
      hide ProvisionSteps, ConfigureSteps;
      assert AttemptSteps(role, a) == p;
    }
  }

  /** A configuration is applied exactly when the server came up and the call succeeded, and
      a node becomes ready only with a configuration applied. */
  lemma AppliedIff(role: Role, a: Attempt)
    ensures Do(ConfigApplied(a.name)) in AttemptSteps(role, a) <==> Applied(a)
    ensures Do(NodeBecameReady(a.name)) in AttemptSteps(role, a) <==> Applied(a) && a.config == Configured
  {
    NoCallsInFailure(a);
    var p, c, fail := ProvisionSteps(a), ConfigureSteps(role, a), FailureSteps(a);
    var applied, ready := Do(ConfigApplied(a.name)), Do(NodeBecameReady(a.name));
    hide FailureSteps;
    assert applied !in p && ready !in p;
    if a.config == NotReadyInTime || a.config == Configured {
      var w := WaitSteps(role, a);
      assert c == [Phase(a, ApplyingTalosConfig), applied] + w && c[1] == applied;
      assert ready in w <==> a.config == Configured by {
        if a.config == Configured { assert w[2] == ready; }
      }
    }
    hide ProvisionSteps;
    if a.server.Provisioned? { assert AttemptSteps(role, a) == p + ([AddressStep(a)] + c); }
  }

  lemma NoCallsInFailure(a: Attempt)
    ensures Do(ConfigApplied(a.name)) !in FailureSteps(a) && Do(NodeBecameReady(a.name)) !in FailureSteps(a)
  {
  }
}
