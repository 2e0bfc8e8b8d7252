/** The provisioning part of the cluster status, updated in place by the phase handlers. */
module ProvisioningStatus {
  import opened Nodes
  import opened PhaseHistory
  import opened AddonInstaller
  import opened PhaseMachine

  class ClusterStatus {
    const log: PhaseLog
    var addons: map<string, AddonStatus>

    function View(): Cluster
      reads this, log
    {
      Cluster(log.phase, log.View(), addons)
    }

    constructor (c: Cluster)
      ensures View() == c && fresh(log)
    {
      log := new PhaseLog(c.phase, c.log);
      addons := c.addons;
    }

    method EnterPhase(phase: ProvisioningPhase, now: nat)
      modifies log
      ensures View() == Enter(old(View()), phase, now)
    {
      log.RecordPhaseTransition(phase, now);
      log.phase := phase;
    }

    method CheckPhaseTimeout(now: nat)
      modifies log
      ensures View() == Checked(old(View()), now)
    {
      if log.startedAt == None {
        return;
      }
      var expected := Expected(log.phase);
      if expected == None {
        return;
      }
      var elapsed := now - log.startedAt.value;
      if elapsed > 2 * expected.value * SECOND {
        log.RecordPhaseError(PhaseName(log.phase), OVERDUE, now);
      }
    }

    method ReconcileInfrastructurePhase(a: Answers)
      modifies log
      ensures View() == InfrastructureStep(old(View()), a)
    {
      log.phase := Infrastructure;
      if |log.history| == 0 {
        log.RecordPhaseTransition(Infrastructure, a.now);
      }
      if a.infraExists {
        EnterPhase(Image, a.now);
        return;
      }
      if a.workDone {
        EnterPhase(Image, a.now);
      }
    }

    method ReconcileCNIPhase(cli: bool, a: Answers)
      modifies this, log
      ensures View() == CNIStep(old(View()), cli, a)
    {
      if !a.workDone {
        return;
      }
      var ready := InstallAndWaitForCNI(a);
      if ready {
        if cli {
          EnterPhase(Compute, a.now);
        } else {
          EnterPhase(Addons, a.now);
        }
      }
    }

    method InstallAndWaitForCNI(a: Answers) returns (ready: bool)
      modifies this, log
      ensures ready == (a.ciliumFailure == None && a.ciliumReady)
      ensures var c := old(View());
              View() == if a.ciliumFailure.Some? then
                          c.(log := Errored(c.log, ErrorRecord(a.now, c.phase, CILIUM, a.ciliumFailure.value)))
                        else c.(addons := c.addons[CILIUM := CiliumStatus(a.ciliumReady, a.now)])
    {
      if a.ciliumFailure.Some? {
        log.RecordPhaseError(CILIUM, a.ciliumFailure.value, a.now);
        return false;
      }
      addons := addons[CILIUM := CiliumStatus(false, a.now)];
      if !a.ciliumReady {
        return false;
      }
      addons := addons[CILIUM := CiliumStatus(true, a.now)];
      return true;
    }

    /** Installs the first step that is not installed; with none left, provisioning is
        complete. wait is the backoff in seconds after a failure, 0 for an immediate requeue. */
    method InstallNextAddon(steps: seq<AddonStep>, call: Call) returns (wait: nat)
      modifies this, log
      ensures View() == InstallNext(old(View()), steps, call)
      ensures var i := FirstMissing(old(addons), steps);
              wait == if i < |steps| && call.failure.Some? then RetryBackoff(Retries(old(addons), steps[i].name) + 1)
                      else 0
    {
      var i := 0;
      while i < |steps| && IsInstalled(addons, steps[i].name)
        invariant i <= |steps| && View() == old(View())
        invariant forall j | 0 <= j < i :: IsInstalled(addons, steps[j].name)
      {
        i := i + 1;
      }
      FirstMissingIs(addons, steps, i);
      if i == |steps| {
        log.startedAt := None;
        EnterPhase(Complete, call.now);
        return 0;
      }
      var step := steps[i];
      if call.failure.Some? {
        log.RecordPhaseError(step.name, call.failure.value, call.now);
        var retryCount := 0;
        if step.name in addons {
          retryCount := addons[step.name].retryCount;
        }
        retryCount := retryCount + 1;
        addons := addons[step.name := FailedStatus(step.order, retryCount, call.failure.value, call.now)];
        return RetryBackoff(retryCount);
      }
      addons := addons[step.name := InstalledStatus(step.order, call.start, call.now)];
      return 0;
    }

    method ReconcileAddonsPhase(steps: seq<AddonStep>, a: Answers)
      modifies this, log
      ensures View() == AddonsStep(old(View()), steps, a)
    {
      if !a.workersReady || !a.workDone {
        return;
      }
      var _ := InstallNextAddon(steps, a.call);
    }

    method HandlePhase(current: ProvisioningPhase, cli: bool, steps: seq<AddonStep>, a: Answers)
      modifies this, log
      ensures View() == Handle(old(View()), current, cli, steps, a)
    {
      match current
      case Infrastructure => ReconcileInfrastructurePhase(a);
      case Image =>
        if a.workDone {
          EnterPhase(Compute, a.now);
        }
      case Compute =>
        if a.workDone {
          EnterPhase(if cli then Addons else Bootstrap, a.now);
        }
      case Bootstrap =>
        if a.workDone {
          EnterPhase(CNI, a.now);
        }
      case CNI => ReconcileCNIPhase(cli, a);
      case Addons => ReconcileAddonsPhase(steps, a);
      case Configuring =>
        if a.workDone {
          EnterPhase(Complete, a.now);
        }
      case Complete =>
      case _ => log.phase := Infrastructure;
    }

    /** The state machine's method. A nil bootstrap field with an empty phase panics. */
    method ReconcileWithStateMachine(bootstrap: Option<bool>, steps: seq<AddonStep>, a: Answers)
      returns (panicked: bool)
      modifies this, log
      ensures panicked == Reconcile(old(View()), bootstrap, steps, a).Panics?
      ensures View() == if panicked then old(View()) else Reconcile(old(View()), bootstrap, steps, a).cluster
    {
      hide Handle, Checked;
      var currentPhase := log.phase;
      if currentPhase == Unset {
        if bootstrap == None {
          return true;
        }
        if bootstrap.value {
          currentPhase := CNI;
          log.phase := CNI;
        } else {
          currentPhase := Infrastructure;
        }
      }
      CheckPhaseTimeout(a.now);
      HandlePhase(currentPhase, bootstrap == Some(true), steps, a);
      return false;
    }
  }
}
