/** The list entry that one provisioning attempt leaves behind. */
module AttemptResults {
  import opened Nodes
  import opened Steps
  import opened Provisioning
  import opened Interleaving

  lemma {:induction false} RunEntryConcat(e: Option<NodeStatus>, a: seq<Step>, b: seq<Step>)
    ensures RunEntry(e, a + b) == RunEntry(RunEntry(e, a), b)
  {
    if b == [] {
      assert a + b == a;
    } else {
      RunEntryConcat(e, a, b[..|b| - 1]);
      assert (a + b)[..|a + b| - 1] == a + b[..|b| - 1];
    }
  }

  lemma EntryUnchanged(e: Option<NodeStatus>)
    ensures RunEntry(e, []) == e
  {
  }

  lemma EntryThree(e: Option<NodeStatus>, x: Step, y: Step, z: Step)
    ensures RunEntry(e, [x]) == EntryStep(e, x)
    ensures RunEntry(e, [x, y]) == EntryStep(EntryStep(e, x), y)
    ensures RunEntry(e, [x, y, z]) == EntryStep(EntryStep(EntryStep(e, x), y), z)
  {
    assert RunEntry(e, []) == e;
    assert [] + [x] == [x] && [x] + [y] == [x, y] && [x, y] + [z] == [x, y, z];
    RunEntrySnoc(e, [], x);
    RunEntrySnoc(e, [x], y);
    RunEntrySnoc(e, [x, y], z);
  }

  lemma FailureDropsEntry(e: Option<NodeStatus>, a: Attempt)
    ensures RunEntry(e, FailureSteps(a)) == None
  {
    EntryThree(e, FailureSteps(a)[0], FailureSteps(a)[1], FailureSteps(a)[2]);
  }

  lemma ProvisionEntry(a: Attempt)
    ensures RunEntry(None, ProvisionSteps(a)) ==
            match a.server
            case CreateFailed(_) => Some(NodeStatus(a.name, 0, "", "", Failed, Some(a.at), false, None))
            case NoAddress => None
            case NoServerID => None
            case Provisioned(_, _, _) => Some(NodeStatus(a.name, 0, "", "", WaitingForIP, Some(a.at), false, None))
  {
    hide RunEntry, FailureSteps;
    var s1, s2, s3 := Phase(a, CreatingServer), Do(ServerCreated(a.name)), Phase(a, WaitingForIP);
    if a.server.CreateFailed? {
      EntryThree(None, s1, if a.server.orphan then s2 else Phase(a, Failed), Phase(a, Failed));
      assert ProvisionSteps(a) == if a.server.orphan then [s1, s2, Phase(a, Failed)] else [s1, Phase(a, Failed)];
    } else {
      EntryThree(None, s1, s2, s3);
      var rest := if a.server.Provisioned? then [] else FailureSteps(a);
      assert ProvisionSteps(a) == [s1, s2, s3] + rest;
      assert [s1, s2, s3] + [] == [s1, s2, s3];
      RunEntryConcat(None, [s1, s2, s3], rest);
      FailureDropsEntry(RunEntry(None, [s1, s2, s3]), a);
    }
  }

  function Settled(a: Attempt, phase: NodePhase): Option<NodeStatus>
    requires a.server.Provisioned?
  {
    Some(NodeStatus(a.name, a.server.serverID, a.server.publicIP, a.server.privateIP, phase, Some(a.at), false, None))
  }

  lemma WaitEntry(a: Attempt, role: Role, phase: NodePhase)
    requires a.server.Provisioned?
    ensures RunEntry(Settled(a, phase), WaitSteps(role, a)) ==
            if a.config == Configured then Settled(a, NodeInitializing)
            else if role == Worker then None
            else Settled(a, WaitingForK8s)
  {
    hide RunEntry, FailureSteps;
    var e, s1, s2 := Settled(a, phase), Phase(a, RebootingWithConfig), Phase(a, WaitingForK8s);
    var s3 := if a.config == Configured then Do(NodeBecameReady(a.name)) else Do(NodeReadyTimedOut(a.name));
    EntryThree(e, s1, s2, s3);
    var rest := if a.config == Configured then [Phase(a, NodeInitializing)]
                else if role == Worker then FailureSteps(a) else [s2];
    assert WaitSteps(role, a) == [s1, s2, s3] + rest;
    RunEntryConcat(e, [s1, s2, s3], rest);
    var q := RunEntry(e, [s1, s2, s3]);
    EntryThree(q, Phase(a, NodeInitializing), s1, s1);
    EntryThree(q, s2, s1, s1);
    FailureDropsEntry(q, a);
  }

  /** The outcome table: a failed create stays listed as Failed, any other
      failure drops the entry, except that a control plane whose configuration
      was applied stays listed; success records the server's identity. */
  lemma AttemptEntry(role: Role, a: Attempt)
    ensures RunEntry(None, AttemptSteps(role, a)) ==
            if a.server.CreateFailed? then Some(NodeStatus(a.name, 0, "", "", Failed, Some(a.at), false, None))
            else if !a.server.Provisioned? then None
            else if a.config == Configured then Settled(a, NodeInitializing)
            else if a.config == NoTalosClients then Settled(a, WaitingForK8s)
            else if a.config == NotReadyInTime && role == ControlPlane then Settled(a, WaitingForK8s)
            else None
  {
    hide RunEntry, FailureSteps, ProvisionSteps, WaitSteps;
    ProvisionEntry(a);
    var e := RunEntry(None, ProvisionSteps(a));
    if a.server.Provisioned? {
      var cfg, up := ConfigureSteps(role, a), Settled(a, WaitingForTalosAPI);
      RunEntryConcat(None, ProvisionSteps(a), [AddressStep(a)] + cfg);
      RunEntryConcat(e, [AddressStep(a)], cfg);
      EntryThree(e, AddressStep(a), AddressStep(a), AddressStep(a));
      var applying := Phase(a, ApplyingTalosConfig);
      EntryThree(up, applying, Do(ConfigApplied(a.name)), applying);
      if a.config == NoTalosClients {
        EntryThree(up, Phase(a, WaitingForK8s), applying, applying);
      } else if a.config == GenerateFailed || a.config == ApplyFailed {
        RunEntryConcat(up, [applying], FailureSteps(a));
        FailureDropsEntry(RunEntry(up, [applying]), a);
      } else {
        RunEntryConcat(up, [applying, Do(ConfigApplied(a.name))], WaitSteps(role, a));
        WaitEntry(a, role, ApplyingTalosConfig);
      }
    } else {
      assert ProvisionSteps(a) + [] == ProvisionSteps(a);
    }
  }
}
