/** The world the operator acts on: which servers run, and which of them have a
    node object in Kubernetes. */
module Fleet {
  import opened Nodes
  import opened Steps
  import opened Interleaving
  import opened Provisioning

  datatype World = World(servers: set<string>, registered: set<string>)

  function Observe(w: World, e: Effect): World {
    match e
    case ServerCreated(n) => w.(servers := w.servers + {n})
    case ServerDeleted(n) => w.(servers := w.servers - {n})
    case NodeObjectDeleted(n) => w.(registered := w.registered - {n})
    case NodeBecameReady(n) => w.(registered := w.registered + {n})
    case _ => w
  }

  function ObserveAll(w: World, es: seq<Effect>): World {
    if es == [] then w else Observe(ObserveAll(w, es[..|es| - 1]), es[|es| - 1])
  }

  lemma {:induction false} ObserveConcat(w: World, a: seq<Effect>, b: seq<Effect>)
    ensures ObserveAll(w, a + b) == ObserveAll(ObserveAll(w, a), b)
  {
    if b == [] {
      assert a + b == a;
    } else {
      ObserveConcat(w, a, b[..|b| - 1]);
      assert (a + b)[..|a + b| - 1] == a + b[..|b| - 1];
    }
  }

  // ---- The world seen from one name ----------------------------------------

  datatype Presence = Presence(live: bool, registered: bool)

  function At(w: World, name: string): Presence {
    Presence(name in w.servers, name in w.registered)
  }

  function PresenceStep(p: Presence, s: Step): Presence {
    match s
    case Do(ServerCreated(_)) => p.(live := true)
    case Do(ServerDeleted(_)) => p.(live := false)
    case Do(NodeObjectDeleted(_)) => p.(registered := false)
    case Do(NodeBecameReady(_)) => p.(registered := true)
    case _ => p
  }

  function RunPresence(p: Presence, steps: seq<Step>): Presence {
    if steps == [] then p else PresenceStep(RunPresence(p, steps[..|steps| - 1]), steps[|steps| - 1])
  }

  lemma {:induction false} RunPresenceConcat(p: Presence, a: seq<Step>, b: seq<Step>)
    ensures RunPresence(p, a + b) == RunPresence(RunPresence(p, a), b)
  {
    if b == [] {
      assert a + b == a;
    } else {
      RunPresenceConcat(p, a, b[..|b| - 1]);
      assert (a + b)[..|a + b| - 1] == a + b[..|b| - 1];
    }
  }

  /** What happened to a name follows from the steps that concern it. */
  lemma {:induction false} WorldByName(w: World, steps: seq<Step>, name: string)
    ensures At(ObserveAll(w, Effects(steps)), name) == RunPresence(At(w, name), Own(steps, name))
  {
    hide ObserveAll, RunPresence, At, PresenceStep, StepName;
    if steps == [] {
      NothingHappened(w, name);
    } else {
      var k := |steps| - 1;
      WorldByName(w, steps[..k], name);
      assert steps == steps[..k] + [steps[k]];
      WorldAfterStep(w, steps[..k], steps[k], name);
      hide Own;
      OwnSnoc(steps[..k], steps[k], name);
      if StepName(steps[k]) == name {
        PresenceSnoc(At(w, name), Own(steps[..k], name), steps[k]);
      }
    }
  }

  lemma NothingHappened(w: World, name: string)
    ensures ObserveAll(w, []) == w && RunPresence(At(w, name), []) == At(w, name)
  {
  }

  lemma PresenceSnoc(p: Presence, own: seq<Step>, s: Step)
    ensures RunPresence(p, own + [s]) == PresenceStep(RunPresence(p, own), s)
  {
    assert (own + [s])[..|own|] == own;
  }

  lemma WorldAfterStep(w: World, steps: seq<Step>, s: Step, name: string)
    ensures var before, after := ObserveAll(w, Effects(steps)), ObserveAll(w, Effects(steps + [s]));
            At(after, name) == if StepName(s) == name then PresenceStep(At(before, name), s) else At(before, name)
  {
    var es := Effects(steps);
    EffectsSnoc(steps, s);
    if s.Do? {
      ObserveSnoc(w, es, s.effect);
      hide Effects, ObserveAll;
    } else {
      assert es + [] == es;
    }
  }

  lemma ObserveSnoc(w: World, es: seq<Effect>, e: Effect)
    ensures ObserveAll(w, es + [e]) == Observe(ObserveAll(w, es), e)
  {
    assert (es + [e])[..|es|] == es;
  }

  lemma EffectsSnoc(steps: seq<Step>, s: Step)
    ensures Effects(steps + [s]) == Effects(steps) + if s.Do? then [s.effect] else []
  {
    assert (steps + [s])[..|steps|] == steps;
  }

  lemma ObserveOne(w: World, e: Effect)
    ensures ObserveAll(w, [e]) == Observe(w, e)
  {
    assert ObserveAll(w, [e][..0]) == w;
  }

  lemma PresenceOne(p: Presence, s: Step)
    ensures RunPresence(p, [s]) == PresenceStep(p, s)
  {
    assert RunPresence(p, [s][..0]) == p;
  }

  // ---- What one provisioning attempt leaves behind --------------------------

  // A failed create leaves no server, deletions succeed, Talos clients are there.
  predicate Clean(a: Attempt) {
    a.deleteOk && !(a.server.CreateFailed? && a.server.orphan) && a.config != NoTalosClients
  }

  lemma PresenceThree(p: Presence, x: Step, y: Step, z: Step)
    ensures RunPresence(p, [x, y]) == PresenceStep(PresenceStep(p, x), y)
    ensures RunPresence(p, [x, y, z]) == PresenceStep(PresenceStep(PresenceStep(p, x), y), z)
  {
    PresenceOne(p, x);
    assert [x, y] == [x] + [y] && [x, y, z] == [x, y] + [z];
    RunPresenceConcat(p, [x], [y]);
    PresenceOne(RunPresence(p, [x]), y);
    RunPresenceConcat(p, [x, y], [z]);
    PresenceOne(RunPresence(p, [x, y]), z);
  }

  lemma FailureClears(p: Presence, a: Attempt)
    ensures RunPresence(p, FailureSteps(a)) == Presence(p.live && !a.deleteOk, p.registered)
  {
    PresenceThree(p, FailureSteps(a)[0], FailureSteps(a)[1], FailureSteps(a)[2]);
  }

  lemma ProvisionPresence(p: Presence, a: Attempt)
    requires !p.live && Clean(a)
    ensures RunPresence(p, ProvisionSteps(a)) == Presence(a.server.Provisioned?, p.registered)
  {
    hide RunPresence, FailureSteps;
    var s1 := Phase(a, CreatingServer);
    PresenceOne(p, s1);
    if a.server.CreateFailed? {
      assert ProvisionSteps(a) == [s1, Phase(a, Failed)];
      PresenceThree(p, s1, Phase(a, Failed), s1);
    } else {
      var s2, s3 := Do(ServerCreated(a.name)), Phase(a, WaitingForIP);
      PresenceThree(p, s1, s2, s3);
      var rest := if a.server.Provisioned? then [] else FailureSteps(a);
      assert ProvisionSteps(a) == [s1, s2, s3] + rest;
      RunPresenceConcat(p, [s1, s2, s3], rest);
      assert [s1, s2, s3] + [] == [s1, s2, s3];
      FailureClears(PresenceStep(PresenceStep(PresenceStep(p, s1), s2), s3), a);
    }
  }

  lemma WaitPresence(p: Presence, role: Role, a: Attempt)
    requires p.live && Clean(a)
    ensures RunPresence(p, WaitSteps(role, a)) ==
            if a.config == Configured then Presence(true, true)
            else Presence(role == ControlPlane, p.registered)
  {
    hide RunPresence, FailureSteps;
    var s1, s2 := Phase(a, RebootingWithConfig), Phase(a, WaitingForK8s);
    PresenceThree(p, s1, s2, s1);
    var s3 := if a.config == Configured then Do(NodeBecameReady(a.name)) else Do(NodeReadyTimedOut(a.name));
    PresenceThree(p, s1, s2, s3);
    var rest := if a.config == Configured then [Phase(a, NodeInitializing)]
                else if role == Worker then FailureSteps(a) else [s2];
    assert WaitSteps(role, a) == [s1, s2, s3] + rest;
    RunPresenceConcat(p, [s1, s2, s3], rest);
    var q := RunPresence(p, [s1, s2, s3]);
    PresenceOne(q, Phase(a, NodeInitializing));
    PresenceOne(q, s2);
    FailureClears(q, a);
  }

  /** A worker is kept exactly when it was configured and became ready in time.
      A control plane is kept as well once its configuration is applied. */
  function Kept(role: Role, a: Attempt): bool {
    a.server.Provisioned? && (a.config == Configured || (role == ControlPlane && a.config == NotReadyInTime))
  }

  lemma AttemptPresence(p: Presence, role: Role, a: Attempt)
    requires !p.live && Clean(a)
    ensures RunPresence(p, AttemptSteps(role, a)) == Presence(Kept(role, a), p.registered || Succeeds(a))
  {
    hide RunPresence, FailureSteps, ProvisionSteps, WaitSteps;
    ProvisionPresence(p, a);
    if a.server.Provisioned? {
      var up := Presence(true, p.registered);
      var cfg := ConfigureSteps(role, a);
      RunPresenceConcat(p, ProvisionSteps(a), [AddressStep(a)] + cfg);
      RunPresenceConcat(up, [AddressStep(a)], cfg);
      PresenceOne(up, AddressStep(a));
      var applying := Phase(a, ApplyingTalosConfig);
      if a.config == GenerateFailed || a.config == ApplyFailed {
        RunPresenceConcat(up, [applying], FailureSteps(a));
        PresenceOne(up, applying);
        FailureClears(up, a);
      } else {
        RunPresenceConcat(up, [applying, Do(ConfigApplied(a.name))], WaitSteps(role, a));
        PresenceThree(up, applying, Do(ConfigApplied(a.name)), applying);
        WaitPresence(up, role, a);
      }
    } else {
      assert ProvisionSteps(a) + [] == ProvisionSteps(a);
    }
  }

  // ---- At every moment ------------------------------------------------------

  lemma {:induction false} ServersGrowByNames(w: World, steps: seq<Step>)
    ensures ObserveAll(w, Effects(steps)).servers <= w.servers + set s | s in steps :: StepName(s)
  {
    if steps != [] {
      var k := |steps| - 1;
      ServersGrowByNames(w, steps[..k]);
      EffectsSnoc(steps[..k], steps[k]);
      assert steps == steps[..k] + [steps[k]];
      ObserveConcat(w, Effects(steps[..k]), if steps[k].Do? then [steps[k].effect] else []);
      if steps[k].Do? { ObserveOne(ObserveAll(w, Effects(steps[..k])), steps[k].effect); }
      assert steps[k] in steps && forall s | s in steps[..k] :: s in steps;
    }
  }
}
