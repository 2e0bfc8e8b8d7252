/** The provisioning state machine: one reconcile takes one look at the phase and
    makes at most one transition. */
module PhaseMachine {
  import opened Nodes
  import opened PhaseHistory
  import opened AddonInstaller

  // What one reconcile meets. workDone: credentials, context and the phase's own
  // work all succeed; ciliumFailure: the error when Cilium cannot be applied.
  datatype Answers = Answers(
    now: nat,
    infraExists: bool,
    workDone: bool,
    ciliumFailure: Option<string>,
    ciliumReady: bool,
    workersReady: bool,
    call: Call)

  function Enter(c: Cluster, phase: ProvisioningPhase, now: nat): Cluster {
    c.(phase := phase, log := Transitioned(c.log, phase, now))
  }

  // ---- Phases that overrun ------------------------------------------------------------

  /** Expected duration in seconds. */
  function Expected(phase: ProvisioningPhase): Option<nat> {
    match phase
    case Infrastructure => Some(30)
    case Image => Some(120)
    case Compute => Some(60)
    case Bootstrap => Some(180)
    case CNI => Some(120)
    case Addons => Some(300)
    case _ => None
  }

  predicate Overdue(c: Cluster, now: nat) {
    && c.log.startedAt.Some? && Expected(c.phase).Some?
    && now - c.log.startedAt.value > 2 * Expected(c.phase).value * SECOND
  }

  // In minutes, how long a phase may take before an error is recorded.
  function Allowance(phase: ProvisioningPhase): nat {
    match phase
    case Infrastructure => 1
    case Compute => 2
    case Image => 4
    case CNI => 4
    case Bootstrap => 6
    case Addons => 10
    case _ => 0
  }

  lemma OverdueIff(c: Cluster, now: nat)
    ensures Overdue(c, now) <==>
            c.log.startedAt.Some? && Allowance(c.phase) > 0
            && now > c.log.startedAt.value + Allowance(c.phase) * 60 * SECOND
  {
  }

  function PhaseName(phase: ProvisioningPhase): string {
    match phase
    case Unset => ""
    case Infrastructure => "Infrastructure"
    case Image => "Image"
    case Compute => "Compute"
    case Bootstrap => "Bootstrap"
    case CNI => "CNI"
    case Addons => "Addons"
    case Configuring => "Configuring"
    case Complete => "Complete"
    case Unknown(name) => name
  }

  const OVERDUE := "phase exceeds expected duration"

  function Checked(c: Cluster, now: nat): Cluster {
    if Overdue(c, now) then c.(log := Errored(c.log, ErrorRecord(now, c.phase, PhaseName(c.phase), OVERDUE))) else c
  }

  // ---- The handler of each phase ---------------------------------------------------------

  function InfrastructureStep(c: Cluster, a: Answers): Cluster {
    var started := if c.log.history == [] then Enter(c, Infrastructure, a.now) else c.(phase := Infrastructure);
    if a.infraExists || a.workDone then Enter(started, Image, a.now) else started
  }

  const CILIUM := "cilium"

  function CiliumStatus(ready: bool, now: nat): AddonStatus {
    AddonStatus(true, ready, if ready then Installed else Installing, Some(now), 1, Some(now),
                if ready then Some(0) else None, 0, "")
  }

  function CNIStep(c: Cluster, cli: bool, a: Answers): Cluster {
    if !a.workDone then c
    else if a.ciliumFailure.Some? then
      c.(log := Errored(c.log, ErrorRecord(a.now, c.phase, CILIUM, a.ciliumFailure.value)))
    else
      var d := c.(addons := c.addons[CILIUM := CiliumStatus(a.ciliumReady, a.now)]);
      if a.ciliumReady then Enter(d, if cli then Compute else Addons, a.now) else d
  }

  function AddonsStep(c: Cluster, steps: seq<AddonStep>, a: Answers): Cluster {
    if a.workersReady && a.workDone then InstallNext(c, steps, a.call) else c
  }

  function Handle(c: Cluster, current: ProvisioningPhase, cli: bool, steps: seq<AddonStep>, a: Answers): Cluster {
    match current
    case Infrastructure => InfrastructureStep(c, a)
    case Image => if a.workDone then Enter(c, Compute, a.now) else c
    case Compute => if a.workDone then Enter(c, if cli then Addons else Bootstrap, a.now) else c
    case Bootstrap => if a.workDone then Enter(c, CNI, a.now) else c
    case CNI => CNIStep(c, cli, a)
    case Addons => AddonsStep(c, steps, a)
    case Configuring => if a.workDone then Enter(c, Complete, a.now) else c
    case Complete => c
    case _ => c.(phase := Infrastructure)
  }

  // The empty phase reads the bootstrap field without a nil check.
  datatype Result = Panics | Reconciled(cluster: Cluster)

  /** bootstrap is None when the field is nil, else whether the CLI completed it. */
  function Reconcile(c: Cluster, bootstrap: Option<bool>, steps: seq<AddonStep>, a: Answers): Result {
    if c.phase == Unset then
      match bootstrap
      case None => Panics
      case Some(true) => Reconciled(Handle(Checked(c.(phase := CNI), a.now), CNI, true, steps, a))
      case Some(false) => Reconciled(Handle(Checked(c, a.now), Infrastructure, false, steps, a))
    else
      Reconciled(Handle(Checked(c, a.now), c.phase, bootstrap == Some(true), steps, a))
  }

  /** Exactly an empty phase together with a nil bootstrap field panics, and no reconcile
      leaves an empty phase: only the first reconcile of a cluster can panic. */
  lemma PanicsIff(c: Cluster, bootstrap: Option<bool>, steps: seq<AddonStep>, a: Answers)
    ensures var r := Reconcile(c, bootstrap, steps, a);
            && (r.Panics? <==> c.phase == Unset && bootstrap == None)
            && (r.Reconciled? ==> r.cluster.phase != Unset)
  {
    hide Transitioned, Errored;
  }

  // ---- The legal paths ------------------------------------------------------------------

  /** A cluster bootstrapped by the CLI has its infrastructure and first node already. */
  function Path(cli: bool): seq<ProvisioningPhase> {
    if cli then [CNI, Compute, Addons, Complete]
    else [Infrastructure, Image, Compute, Bootstrap, CNI, Addons, Complete]
  }

  /** Position on the path. The empty phase stands for its start. */
  function Place(phase: ProvisioningPhase, cli: bool): (i: nat)
    ensures i <= |Path(cli)|
    ensures phase == Unset ==> i == 0
    ensures phase != Unset && i < |Path(cli)| ==> Path(cli)[i] == phase
  {
    match phase
    case Unset => 0
    case Infrastructure => if cli then 4 else 0
    case Image => if cli then 4 else 1
    case Compute => if cli then 1 else 2
    case Bootstrap => if cli then 4 else 3
    case CNI => if cli then 0 else 4
    case Addons => if cli then 2 else 5
    case Complete => if cli then 3 else 6
    case _ => if cli then 4 else 7
  }

  // The first phase of a CLI-bootstrapped cluster is set without being recorded.
  function RecordedPath(phase: ProvisioningPhase, cli: bool): seq<ProvisioningPhase>
    requires phase != Unset && Place(phase, cli) < |Path(cli)|
  {
    var i := Place(phase, cli) + 1;
    if cli then Path(cli)[1..i] else Path(cli)[..i]
  }

  // Past CNI on this path, where Cilium has to be in place.
  predicate NeedsCilium(phase: ProvisioningPhase, cli: bool) {
    phase == Addons || phase == Complete || (cli && phase == Compute)
  }

  /** The cluster is on its path, its history lists the path so far, and Cilium is
      installed wherever it is needed. */
  ghost predicate OnPath(c: Cluster, cli: bool) {
    && PhaseHistory.Sound(c.log)
    && if c.phase == Unset then c.log.history == []
       else
         && Place(c.phase, cli) < |Path(cli)|
         && Phases(c.log.history) == RecordedPath(c.phase, cli)
         && (NeedsCilium(c.phase, cli) ==> IsInstalled(c.addons, CILIUM))
  }

  lemma EnterIsSound(c: Cluster, phase: ProvisioningPhase, now: nat)
    requires PhaseHistory.Sound(c.log)
    ensures PhaseHistory.Sound(Enter(c, phase, now).log)
    ensures Phases(Enter(c, phase, now).log.history) == Phases(c.log.history) + [phase]
  {
    TransitionKeepsTimeline(c.log, phase, now);
  }

  lemma CheckKeepsPath(c: Cluster, cli: bool, now: nat)
    requires OnPath(c, cli)
    ensures OnPath(Checked(c, now), cli) && Checked(c, now).phase == c.phase && Checked(c, now).addons == c.addons
  {
    ErrorTouchesOpenRecord(c.log, ErrorRecord(now, c.phase, PhaseName(c.phase), OVERDUE));
    hide PhaseHistory.Sound, Errored, RecordedPath, Path;
  }

  // One phase further on the path.
  lemma EnterNext(c: Cluster, phase: ProvisioningPhase, cli: bool, now: nat)
    requires OnPath(c, cli) && c.phase != Unset && phase != Unset
    requires Place(phase, cli) == Place(c.phase, cli) + 1 < |Path(cli)|
    requires NeedsCilium(phase, cli) ==> IsInstalled(c.addons, CILIUM)
    ensures OnPath(Enter(c, phase, now), cli)
  {
    EnterIsSound(c, phase, now);
    hide PhaseHistory.Sound, Transitioned, Phases;
    assert Path(cli)[Place(phase, cli)] == phase;
  }

  // What holds after one reconcile from c: still on the path, at most one place on.
  ghost predicate Advances(c: Cluster, after: Cluster, cli: bool) {
    && OnPath(after, cli) && after.phase != Unset
    && Place(c.phase, cli) <= Place(after.phase, cli) <= Place(c.phase, cli) + 1
  }

  lemma InfrastructureAdvances(c: Cluster, a: Answers)
    requires OnPath(c, false) && (c.phase == Unset || c.phase == Infrastructure)
    ensures Advances(c, InfrastructureStep(c, a), false)
  {
    var o := if c.log.history == [] then Enter(c, Infrastructure, a.now) else c.(phase := Infrastructure);
    EnterIsSound(c, Infrastructure, a.now);
    assert RecordedPath(Infrastructure, false) == [Infrastructure];
    assert OnPath(o, false) by {
      hide PhaseHistory.Sound, Transitioned;
    }
    EnterNext(o, Image, false, a.now);
    hide OnPath, Transitioned;
  }

  lemma CNIAdvances(c: Cluster, cli: bool, a: Answers)
    requires OnPath(c, cli) && c.phase == CNI
    ensures Advances(c, CNIStep(c, cli, a), cli)
  {
    if a.ciliumFailure.Some? {
      ErrorTouchesOpenRecord(c.log, ErrorRecord(a.now, c.phase, CILIUM, a.ciliumFailure.value));
      hide PhaseHistory.Sound, Errored, Path;
    } else {
      var d := c.(addons := c.addons[CILIUM := CiliumStatus(a.ciliumReady, a.now)]);
      assert OnPath(d, cli);
      if a.ciliumReady { EnterNext(d, if cli then Compute else Addons, cli, a.now); }
      hide OnPath, Transitioned;
    }
  }

  lemma AddonsAdvances(c: Cluster, cli: bool, steps: seq<AddonStep>, a: Answers)
    requires OnPath(c, cli) && c.phase == Addons && forall s | s in steps :: s.name != CILIUM
    ensures Advances(c, AddonsStep(c, steps, a), cli)
  {
    if a.workersReady && a.workDone {
      var i := FirstMissing(c.addons, steps);
      if i == |steps| {
        EnterNext(c, Complete, cli, a.call.now);
      } else {
        assert steps[i] in steps;
        InstallKeepsPath(c, cli, steps, a.call);
      }
    }
  }

  lemma {:induction false} InstallKeepsPath(c: Cluster, cli: bool, steps: seq<AddonStep>, call: Call)
    requires OnPath(c, cli) && c.phase == Addons
    requires var i := FirstMissing(c.addons, steps); i < |steps| && steps[i].name != CILIUM
    ensures OnPath(InstallNext(c, steps, call), cli) && InstallNext(c, steps, call).phase == Addons
  {
    var s := steps[FirstMissing(c.addons, steps)];
    if call.failure.Some? {
      ErrorTouchesOpenRecord(c.log, ErrorRecord(call.now, c.phase, s.name, call.failure.value));
    }
    hide PhaseHistory.Sound, Errored, Path, RecordedPath;
  }

  lemma HandleAdvances(c: Cluster, cli: bool, steps: seq<AddonStep>, a: Answers)
    requires OnPath(c, cli) && c.phase != Unset && forall s | s in steps :: s.name != CILIUM
    ensures Advances(c, Handle(c, c.phase, cli, steps, a), cli)
  {
    assert Place(c.phase, cli) < |Path(cli)|;
    assert NeedsCilium(c.phase, cli) ==> IsInstalled(c.addons, CILIUM);
    if c.phase == Infrastructure {
      InfrastructureAdvances(c, a);
    } else if c.phase == CNI {
      CNIAdvances(c, cli, a);
    } else if c.phase == Addons {
      AddonsAdvances(c, cli, steps, a);
    } else if c.phase != Complete && a.workDone {
      var next := match c.phase case Image => Compute case Compute => (if cli then Addons else Bootstrap) case _ => CNI;
      EnterNext(c, next, cli, a.now);
    }
    hide OnPath, InfrastructureStep, CNIStep, AddonsStep, Transitioned;
  }

  /** From the empty phase on, every reconcile keeps the cluster on its one legal path
      and moves it at most one place; Addons is entered only with Cilium installed. */
  lemma ReconcileAdvances(c: Cluster, cli: bool, steps: seq<AddonStep>, a: Answers)
    requires OnPath(c, cli) && forall s | s in steps :: s.name != CILIUM
    ensures Reconcile(c, Some(cli), steps, a).Reconciled?
    ensures Advances(c, Reconcile(c, Some(cli), steps, a).cluster, cli)
  {
    CheckKeepsPath(c, cli, a.now);
    if c.phase == Unset && cli {
      var d := c.(phase := CNI);
      assert OnPath(d, true) by { assert RecordedPath(CNI, true) == []; }
      CheckKeepsPath(d, true, a.now);
      hide OnPath;
      CNIAdvances(Checked(d, a.now), true, a);
    } else if c.phase == Unset {
      hide OnPath;
      InfrastructureAdvances(Checked(c, a.now), a);
    } else {
      hide OnPath;
      HandleAdvances(Checked(c, a.now), cli, steps, a);
    }
    hide Handle, Checked;
  }

  // ---- Whole runs -----------------------------------------------------------------------

  const FRESH := Cluster(Unset, EMPTY_LOG, map[])

  ghost predicate Run(cs: seq<Cluster>, bootstrap: Option<bool>, steps: seq<AddonStep>, answers: seq<Answers>) {
    && |cs| == |answers| + 1
    && forall k | 0 <= k < |answers| :: Reconcile(cs[k], bootstrap, steps, answers[k]) == Reconciled(cs[k + 1])
  }

  /** Every run from the empty phase follows its path: never back, never skipping a
      phase, Cilium before Addons. */
  lemma {:induction false} RunsFollowThePath(cs: seq<Cluster>, cli: bool, cfg: AddonConfig, answers: seq<Answers>,
                                             k: nat)
    requires Run(cs, Some(cli), Selected(cfg, 9), answers) && cs[0] == FRESH && k < |cs|
    ensures OnPath(cs[k], cli)
    ensures k > 0 ==> Advances(cs[k - 1], cs[k], cli)
  {
    hide Reconcile, Selected, Advances;
    if k == 0 {
      assert cs[0].log == EMPTY_LOG && cs[0].phase == Unset;
    } else {
      hide OnPath;
      RunsFollowThePath(cs, cli, cfg, answers, k - 1);
      EnabledAreDistinct(cfg);
      assert Reconcile(cs[k - 1], Some(cli), Selected(cfg, 9), answers[k - 1]) == Reconciled(cs[k]);
      ReconcileAdvances(cs[k - 1], cli, Selected(cfg, 9), answers[k - 1]);
      AdvancedIsOnPath(cs[k - 1], cs[k], cli);
    }
  }

  lemma AdvancedIsOnPath(c: Cluster, after: Cluster, cli: bool)
    requires Advances(c, after, cli)
    ensures OnPath(after, cli)
  {
    hide OnPath;
  }

  /** How many of the first k reconciles left the phase they started in. */
  ghost function PhaseChanges(cs: seq<Cluster>, k: nat): nat
    requires k < |cs|
  {
    if k == 0 then 0
    else PhaseChanges(cs, k - 1) + if cs[k - 1].phase != Unset && cs[k].phase != cs[k - 1].phase then 1 else 0
  }

  /** Each change of phase moves one place on, so a run makes no more of them than its
      path has steps, however long it is. */
  lemma {:induction false} ChangesAreFew(cs: seq<Cluster>, cli: bool, cfg: AddonConfig, answers: seq<Answers>, k: nat)
    requires Run(cs, Some(cli), Selected(cfg, 9), answers) && cs[0] == FRESH && k < |cs|
    ensures PhaseChanges(cs, k) <= Place(cs[k].phase, cli) < |Path(cli)|
  {
    RunsFollowThePath(cs, cli, cfg, answers, k);
    hide Run, Selected;
    if k > 0 {
      ChangesAreFew(cs, cli, cfg, answers, k - 1);
      OnePlaceOn(cs[k - 1], cs[k], cli);
    }
    hide OnPath;
  }

  lemma OnePlaceOn(c: Cluster, after: Cluster, cli: bool)
    requires Advances(c, after, cli) && Place(c.phase, cli) < |Path(cli)|
    ensures c.phase != Unset && after.phase != c.phase ==> Place(after.phase, cli) == Place(c.phase, cli) + 1
    ensures Place(after.phase, cli) < |Path(cli)| && Place(c.phase, cli) <= Place(after.phase, cli)
  {
  }

  /** Off the path: an unknown phase starts over, and the phase of earlier versions is
      left for Complete when its work is done. */
  lemma OffPathReturns(c: Cluster, bootstrap: Option<bool>, steps: seq<AddonStep>, a: Answers)
    requires c.phase.Unknown? || c.phase == Configuring
    ensures var r := Reconcile(c, bootstrap, steps, a);
            && r.Reconciled? && r.cluster.addons == c.addons
            && r.cluster.phase == if c.phase.Unknown? then Infrastructure
                                  else if a.workDone then Complete else Configuring
  {
    hide Transitioned, Errored;
  }

  // ---- Progress --------------------------------------------------------------------------

  // What the work of a phase needs to answer for the cluster to move on.
  ghost predicate Completes(phase: ProvisioningPhase, c: Cluster, steps: seq<AddonStep>, a: Answers) {
    match phase
    case Infrastructure => a.infraExists || a.workDone
    case CNI => a.workDone && a.ciliumFailure == None && a.ciliumReady
    case Addons => a.workDone && a.workersReady && forall s | s in steps :: IsInstalled(c.addons, s.name)
    case Complete => false
    case _ => a.workDone
  }

  // The phase whose work a reconcile does: the empty one stands for the start of the path.
  function Working(phase: ProvisioningPhase, cli: bool): ProvisioningPhase {
    if phase == Unset then Path(cli)[0] else phase
  }

  lemma {:induction false} HandleMovesOn(c: Cluster, cli: bool, steps: seq<AddonStep>, a: Answers)
    requires c.phase in Path(cli)
    ensures Place(Handle(c, c.phase, cli, steps, a).phase, cli) ==
            Place(c.phase, cli) + if Completes(c.phase, c, steps, a) then 1 else 0
  {
    hide Transitioned, Errored, InstallNext;
    if c.phase == Addons { InstallNextPlace(c, steps, a.call); }
  }

  lemma {:induction false} StartMovesOn(c: Cluster, cli: bool, steps: seq<AddonStep>, a: Answers)
    requires c.phase == Unset
    ensures var r := Reconcile(c, Some(cli), steps, a);
            r.Reconciled? && Place(r.cluster.phase, cli) == if Completes(Path(cli)[0], c, steps, a) then 1 else 0
  {
    hide Transitioned, Errored, InstallNext;
  }

  /** A cluster on its path moves on exactly when the work of its phase is done, whatever
      the phase; and Complete is its end. */
  lemma {:induction false} MovesOnIff(c: Cluster, cli: bool, steps: seq<AddonStep>, a: Answers)
    requires OnPath(c, cli)
    ensures var r := Reconcile(c, Some(cli), steps, a);
            r.Reconciled? && Place(r.cluster.phase, cli) ==
                             Place(c.phase, cli) + if Completes(Working(c.phase, cli), c, steps, a) then 1 else 0
  {
    PlacesOnPath(c, cli);
    if c.phase == Unset {
      hide OnPath, Reconcile;
      StartMovesOn(c, cli, steps, a);
    } else {
      var before := Checked(c, a.now);
      assert before.phase == c.phase && before.addons == c.addons;
      hide OnPath, Checked, Handle, Path, IsInstalled;
      HandleMovesOn(before, cli, steps, a);
    }
  }

  lemma PlacesOnPath(c: Cluster, cli: bool)
    requires OnPath(c, cli)
    ensures c.phase == Unset || c.phase in Path(cli)
  {
    hide PhaseHistory.Sound, RecordedPath;
  }

  lemma {:induction false} InstallNextPlace(c: Cluster, steps: seq<AddonStep>, call: Call)
    requires c.phase == Addons
    ensures InstallNext(c, steps, call).phase ==
            if forall s | s in steps :: IsInstalled(c.addons, s.name) then Complete else Addons
  {
    CompleteIffAllInstalled(c, steps, call);
    InstallNextPhase(c, steps, call);
  }

  // Everything a reconcile asks for succeeds.
  predicate Succeeding(a: Answers) {
    a.workDone && a.ciliumFailure == None && a.ciliumReady && a.workersReady && a.call.failure == None
  }

  // How far an undisturbed cluster is after k reconciles.
  ghost predicate Reached(c: Cluster, cli: bool, steps: seq<AddonStep>, k: nat) {
    var start := Place(Addons, cli);
    if k < start then Place(c.phase, cli) == k && c.addons.Keys <= {CILIUM}
    else if k <= start + |steps| then c.phase == Addons && PrefixInstalled(c.addons, steps, k - start)
    else c.phase == Complete
  }

  lemma InstallsOneMore(c: Cluster, cli: bool, steps: seq<AddonStep>, a: Answers, p: nat)
    requires c.phase == Addons && DistinctSteps(steps) && PrefixInstalled(c.addons, steps, p) && Succeeding(a)
    ensures var r := Reconcile(c, Some(cli), steps, a);
            && r.Reconciled?
            && if p < |steps| then r.cluster.phase == Addons && PrefixInstalled(r.cluster.addons, steps, p + 1)
               else r.cluster.phase == Complete
  {
    var before := Checked(c, a.now);
    hide Transitioned, Errored, InstallNext;
    assert before.phase == Addons && before.addons == c.addons;
    assert Reconcile(c, Some(cli), steps, a) == Reconciled(InstallNext(before, steps, a.call));
    hide Checked, Reconcile;
    InstallNextPlace(before, steps, a.call);
    if p < |steps| {
      CallTouchesFirstMissing(before, steps, a.call, p);
    } else {
      assert forall s | s in steps :: IsInstalled(c.addons, s.name);
    }
  }

  lemma OneReconcile(c: Cluster, cli: bool, steps: seq<AddonStep>, a: Answers, k: nat)
    requires OnPath(c, cli) && Reached(c, cli, steps, k) && Succeeding(a)
    requires DistinctSteps(steps) && forall s | s in steps :: s.name != CILIUM
    ensures var r := Reconcile(c, Some(cli), steps, a); r.Reconciled? && Reached(r.cluster, cli, steps, k + 1)
  {
    MovesOnIff(c, cli, steps, a);
    PlacesOnPath(c, cli);
    hide OnPath, Reconcile, PrefixInstalled;
    var start := Place(Addons, cli);
    if k < start {
      OnlyCilium(c, cli, steps, a);
      NoneInstalled(Reconcile(c, Some(cli), steps, a).cluster.addons, steps);
    } else if k <= start + |steps| {
      InstallsOneMore(c, cli, steps, a, k - start);
    }
  }

  lemma NoneInstalled(addons: map<string, AddonStatus>, steps: seq<AddonStep>)
    requires forall s | s in steps :: s.name != CILIUM
    ensures addons.Keys <= {CILIUM} ==> PrefixInstalled(addons, steps, 0)
  {
    assert forall i | 0 <= i < |steps| :: steps[i] in steps;
  }

  // Before Addons a reconcile touches no addon but Cilium.
  lemma OnlyCilium(c: Cluster, cli: bool, steps: seq<AddonStep>, a: Answers)
    requires c.phase != Addons && c.addons.Keys <= {CILIUM}
    ensures Reconcile(c, Some(cli), steps, a).cluster.addons.Keys <= {CILIUM}
  {
    hide Transitioned, Errored;
  }

  /** A cluster whose calls all succeed is complete after as many reconciles as its path
      has phases before Addons, one for each addon, and one more; and no sooner. */
  lemma {:induction false} ReachesComplete(cs: seq<Cluster>, cli: bool, cfg: AddonConfig, answers: seq<Answers>, k: nat)
    requires Run(cs, Some(cli), Selected(cfg, 9), answers) && cs[0] == FRESH && k < |cs|
    requires forall a | a in answers :: Succeeding(a)
    ensures Reached(cs[k], cli, Selected(cfg, 9), k)
    ensures cs[k].phase == Complete <==> k > (if cli then 2 else 5) + |Selected(cfg, 9)|
  {
    hide Selected, Reconcile, OnPath, Reached, Advances;
    if k == 0 {
      FreshIsReached(cli, Selected(cfg, 9));
    } else {
      ReachesComplete(cs, cli, cfg, answers, k - 1);
      RunsFollowThePath(cs, cli, cfg, answers, k - 1);
      EnabledAreDistinct(cfg);
      assert Reconcile(cs[k - 1], Some(cli), Selected(cfg, 9), answers[k - 1]) == Reconciled(cs[k]);
      OneReconcile(cs[k - 1], cli, Selected(cfg, 9), answers[k - 1], k - 1);
    }
    CompleteWhenReached(cs[k], cli, Selected(cfg, 9), k);
  }

  lemma FreshIsReached(cli: bool, steps: seq<AddonStep>)
    ensures Reached(FRESH, cli, steps, 0)
  {
  }

  lemma CompleteWhenReached(c: Cluster, cli: bool, steps: seq<AddonStep>, k: nat)
    requires Reached(c, cli, steps, k)
    ensures c.phase == Complete <==> k > (if cli then 2 else 5) + |steps|
  {
  }

  // ---- What is recorded of the errors ------------------------------------------------------

  // The errors a reconcile meets: a phase that overran, and a failed installation.
  function ErrorsMet(c: Cluster, steps: seq<AddonStep>, a: Answers): seq<ErrorRecord> {
    (if Overdue(c, a.now) then [ErrorRecord(a.now, c.phase, PhaseName(c.phase), OVERDUE)] else []) +
    if c.phase == CNI && a.workDone && a.ciliumFailure.Some? then
      [ErrorRecord(a.now, CNI, CILIUM, a.ciliumFailure.value)]
    else if c.phase == Addons && a.workDone && a.workersReady && a.call.failure.Some? then
      var i := FirstMissing(c.addons, steps);
      if i < |steps| then [ErrorRecord(a.call.now, Addons, steps[i].name, a.call.failure.value)] else []
    else []
  }

  // The list after more errors: untouched without any, else cut to the last ten.
  function Noted(errors: seq<ErrorRecord>, more: seq<ErrorRecord>): seq<ErrorRecord> {
    if more == [] then errors else LastTen(errors + more)
  }

  lemma NotedTwice(errors: seq<ErrorRecord>, a: seq<ErrorRecord>, b: seq<ErrorRecord>)
    requires |b| <= 1
    ensures Noted(Noted(errors, a), b) == Noted(errors, a + b)
  {
    if a != [] && b != [] {
      LastTenTwice(errors + a, b);
      assert errors + (a + b) == (errors + a) + b;
    } else {
      assert a + [] == a && [] + b == b;
    }
    hide LastTen;
  }

  lemma LastTenTwice(x: seq<ErrorRecord>, y: seq<ErrorRecord>)
    ensures LastTen(LastTen(x) + y) == LastTen(x + y)
  {
    if |x| > MAX_LAST_ERRORS {
      var k := |x| - MAX_LAST_ERRORS;
      assert x[k..] + y == (x + y)[k..];
    }
  }

  lemma {:induction false} HandlerErrors(c: Cluster, cli: bool, steps: seq<AddonStep>, a: Answers)
    requires c.phase != Unset
    ensures var over, met := if Overdue(c, a.now) then 1 else 0, ErrorsMet(c, steps, a);
            && |met| <= over + 1
            && Handle(c, c.phase, cli, steps, a).log.lastErrors == Noted(c.log.lastErrors, met[over..])
  {
    hide LastTen, PhaseName, Overdue;
  }

  /** A reconcile records exactly the errors it meets, and the list keeps the last ten. */
  lemma {:induction false} ErrorsAreRecorded(c: Cluster, bootstrap: Option<bool>, steps: seq<AddonStep>, a: Answers)
    requires c.phase != Unset
    ensures var r := Reconcile(c, bootstrap, steps, a);
            r.Reconciled? && r.cluster.log.lastErrors == Noted(c.log.lastErrors, ErrorsMet(c, steps, a))
  {
    var before, met := Checked(c, a.now), ErrorsMet(c, steps, a);
    var over := if Overdue(c, a.now) then 1 else 0;
    SameErrorsMet(c, steps, a);
    HandlerErrors(before, bootstrap == Some(true), steps, a);
    assert before.phase == c.phase && before.log.lastErrors == Noted(c.log.lastErrors, met[..over]);
    hide Handle, ErrorsMet, Noted, Checked;
    NotedTwice(c.log.lastErrors, met[..over], met[over..]);
    assert met[..over] + met[over..] == met;
  }

  lemma SameErrorsMet(c: Cluster, steps: seq<AddonStep>, a: Answers)
    ensures ErrorsMet(Checked(c, a.now), steps, a) == ErrorsMet(c, steps, a)
    ensures Overdue(Checked(c, a.now), a.now) == Overdue(c, a.now)
  {
    hide LastTen, PhaseName;
  }

  // ---- What is recorded of the addons ------------------------------------------------------

  // Healthy exactly when installed for good; a failure is counted until then.
  predicate StatusSound(s: AddonStatus) {
    && (s.healthy <==> s.phase == Installed) && (s.installed <==> s.phase != InstallFailed)
    && (s.healthy ==> s.retryCount == 0 && s.message == "" && s.startedAt.Some? && s.duration.Some?)
    && (!s.installed ==> s.retryCount > 0)
  }

  // The status belongs to Cilium or to one of the steps, and carries its order.
  ghost predicate OrderSound(name: string, s: AddonStatus, steps: seq<AddonStep>) {
    if name == CILIUM then s.installOrder == 1 else AddonStep(name, s.installOrder) in steps
  }

  ghost predicate AddonsSound(addons: map<string, AddonStatus>, steps: seq<AddonStep>) {
    forall name | name in addons :: StatusSound(addons[name]) && OrderSound(name, addons[name], steps)
  }

  lemma {:induction false} InstallNextIsSound(c: Cluster, steps: seq<AddonStep>, call: Call)
    requires AddonsSound(c.addons, steps) && forall s | s in steps :: s.name != CILIUM
    ensures AddonsSound(InstallNext(c, steps, call).addons, steps)
  {
    hide Transitioned, Errored;
    var i := FirstMissing(c.addons, steps);
    if i < |steps| { assert steps[i] in steps; }
  }

  lemma ReconcileIsSound(c: Cluster, bootstrap: Option<bool>, steps: seq<AddonStep>, a: Answers)
    requires AddonsSound(c.addons, steps) && forall s | s in steps :: s.name != CILIUM
    requires Reconcile(c, bootstrap, steps, a).Reconciled?
    ensures AddonsSound(Reconcile(c, bootstrap, steps, a).cluster.addons, steps)
  {
    var before, atCNI := Checked(c, a.now), Checked(c.(phase := CNI), a.now);
    assert before.addons == c.addons && atCNI.addons == c.addons;
    hide Checked, AddonsSound, Handle;
    HandleIsSound(before, c.phase, bootstrap == Some(true), steps, a);
    HandleIsSound(before, Infrastructure, false, steps, a);
    HandleIsSound(atCNI, CNI, true, steps, a);
  }

  lemma {:induction false} HandleIsSound(c: Cluster, current: ProvisioningPhase, cli: bool, steps: seq<AddonStep>,
                                         a: Answers)
    requires AddonsSound(c.addons, steps) && forall s | s in steps :: s.name != CILIUM
    ensures AddonsSound(Handle(c, current, cli, steps, a).addons, steps)
  {
    hide Transitioned, Errored, InstallNext, CNIStep, AddonsSound;
    InstallNextIsSound(c, steps, a.call);
    CNIIsSound(c, cli, steps, a);
  }

  lemma CNIIsSound(c: Cluster, cli: bool, steps: seq<AddonStep>, a: Answers)
    requires AddonsSound(c.addons, steps)
    ensures AddonsSound(CNIStep(c, cli, a).addons, steps)
  {
    hide Transitioned, Errored;
  }

  /** Over any run each recorded addon is healthy exactly when it is installed, carries the
      order of its step, and counts its failures until it is installed. */
  lemma {:induction false} StatusesAreSound(cs: seq<Cluster>, bootstrap: Option<bool>, cfg: AddonConfig,
                                            answers: seq<Answers>, k: nat)
    requires Run(cs, bootstrap, Selected(cfg, 9), answers) && cs[0] == FRESH && k < |cs|
    ensures AddonsSound(cs[k].addons, Selected(cfg, 9))
  {
    hide Selected, Reconcile, AddonsSound;
    if k == 0 {
      NoAddonsAreSound(Selected(cfg, 9));
    } else {
      StatusesAreSound(cs, bootstrap, cfg, answers, k - 1);
      EnabledAreDistinct(cfg);
      assert Reconcile(cs[k - 1], bootstrap, Selected(cfg, 9), answers[k - 1]) == Reconciled(cs[k]);
      ReconcileIsSound(cs[k - 1], bootstrap, Selected(cfg, 9), answers[k - 1]);
    }
  }

  lemma NoAddonsAreSound(steps: seq<AddonStep>)
    ensures AddonsSound(map[], steps)
  {
  }

  // ---- Where the path is left -------------------------------------------------------------

  function Smooth(now: nat): Answers {
    Answers(now, true, true, None, true, true, Call(None, now, now))
  }

  /** One reconcile enters Addons without Cilium exactly from Compute, on a cluster that
      the CLI bootstrapped and that has no Cilium. */
  lemma AddonsWithoutCiliumIff(c: Cluster, bootstrap: Option<bool>, steps: seq<AddonStep>, a: Answers)
    requires Reconcile(c, bootstrap, steps, a).Reconciled? && c.phase != Addons
    ensures var d := Reconcile(c, bootstrap, steps, a).cluster;
            d.phase == Addons && !IsInstalled(d.addons, CILIUM) <==>
            bootstrap == Some(true) && c.phase == Compute && a.workDone && !IsInstalled(c.addons, CILIUM)
  {
    hide Transitioned, Errored;
  }

  /** A cluster of the CLI without Cilium, in an unknown phase or before Addons on the
      path of the other clusters. */
  predicate Exposed(c: Cluster, bootstrap: Option<bool>) {
    && bootstrap == Some(true) && !IsInstalled(c.addons, CILIUM)
    && (c.phase.Unknown? || c.phase in {Infrastructure, Image, Compute})
  }

  lemma StaysUnexposed(c: Cluster, bootstrap: Option<bool>, steps: seq<AddonStep>, a: Answers)
    requires Reconcile(c, bootstrap, steps, a).Reconciled? && !Exposed(c, bootstrap)
    ensures !Exposed(Reconcile(c, bootstrap, steps, a).cluster, bootstrap)
  {
    hide Transitioned, Errored, InstallNext;
    InstallNextPhase(c, steps, a.call);
    InstallNextPhase(Checked(c, a.now), steps, a.call);
  }

  lemma InstallNextPhase(c: Cluster, steps: seq<AddonStep>, call: Call)
    ensures InstallNext(c, steps, call).phase in {c.phase, Complete}
  {
    hide Transitioned, Errored;
  }

  // Some reconcile of the run enters Addons while Cilium is not installed.
  ghost predicate SkipsCNI(cs: seq<Cluster>) {
    exists k | 0 < k < |cs| :: cs[k - 1].phase != Addons && cs[k].phase == Addons && !IsInstalled(cs[k].addons, CILIUM)
  }

  ghost predicate CanSkipCNI(c: Cluster, bootstrap: Option<bool>, steps: seq<AddonStep>) {
    exists cs: seq<Cluster>, answers: seq<Answers> ::
      Run(cs, bootstrap, steps, answers) && cs[0] == c && SkipsCNI(cs)
  }

  lemma {:induction false} RunStaysUnexposed(cs: seq<Cluster>, bootstrap: Option<bool>, steps: seq<AddonStep>,
                                             answers: seq<Answers>, k: nat)
    requires Run(cs, bootstrap, steps, answers) && !Exposed(cs[0], bootstrap) && k < |cs|
    ensures !Exposed(cs[k], bootstrap)
  {
    hide Reconcile, Exposed;
    if k > 0 {
      RunStaysUnexposed(cs, bootstrap, steps, answers, k - 1);
      assert Reconcile(cs[k - 1], bootstrap, steps, answers[k - 1]) == Reconciled(cs[k]);
      StaysUnexposed(cs[k - 1], bootstrap, steps, answers[k - 1]);
    }
  }

  // How many smooth reconciles an exposed cluster is from Addons.
  function ToAddons(phase: ProvisioningPhase): nat {
    match phase
    case Compute => 1
    case Image => 2
    case Infrastructure => 3
    case _ => 4
  }

  lemma SmoothStep(c: Cluster, steps: seq<AddonStep>)
    requires Exposed(c, Some(true))
    ensures var r := Reconcile(c, Some(true), steps, Smooth(0));
            && r.Reconciled? && !IsInstalled(r.cluster.addons, CILIUM)
            && if c.phase == Compute then r.cluster.phase == Addons
               else Exposed(r.cluster, Some(true)) && ToAddons(r.cluster.phase) < ToAddons(c.phase)
  {
    hide Transitioned, Errored;
  }

  /** An exposed cluster reaches Addons without Cilium when nothing goes wrong. */
  lemma {:induction false} SmoothRun(c: Cluster, steps: seq<AddonStep>)
    returns (cs: seq<Cluster>, answers: seq<Answers>)
    requires Exposed(c, Some(true))
    ensures Run(cs, Some(true), steps, answers) && cs[0] == c && SkipsCNI(cs)
    decreases ToAddons(c.phase)
  {
    hide Reconcile;
    SmoothStep(c, steps);
    var d := Reconcile(c, Some(true), steps, Smooth(0)).cluster;
    if c.phase == Compute {
      cs, answers := [c, d], [Smooth(0)];
      assert cs[1].phase == Addons;
    } else {
      var later, rest := SmoothRun(d, steps);
      cs, answers := [c] + later, [Smooth(0)] + rest;
      var k :| 0 < k < |later| && later[k - 1].phase != Addons && later[k].phase == Addons
               && !IsInstalled(later[k].addons, CILIUM);
      assert cs[k] == later[k - 1] && cs[k + 1] == later[k];
    }
  }

  /** Some run enters Addons without Cilium if and only if the CLI bootstrapped the
      cluster, Cilium is missing, and the phase is unknown, Infrastructure, Image or
      Compute. */
  lemma SkipsCNIIff(c: Cluster, bootstrap: Option<bool>, steps: seq<AddonStep>)
    requires c.phase != Addons
    ensures CanSkipCNI(c, bootstrap, steps) <==> Exposed(c, bootstrap)
  {
    hide Reconcile, SkipsCNI;
    if Exposed(c, bootstrap) {
      var cs, answers := SmoothRun(c, steps);
    } else {
      forall cs: seq<Cluster>, answers: seq<Answers> | Run(cs, bootstrap, steps, answers) && cs[0] == c
        ensures !SkipsCNI(cs)
      {
        UnexposedKeepsCilium(cs, bootstrap, steps, answers);
      }
    }
  }

  lemma UnexposedKeepsCilium(cs: seq<Cluster>, bootstrap: Option<bool>, steps: seq<AddonStep>, answers: seq<Answers>)
    requires Run(cs, bootstrap, steps, answers) && !Exposed(cs[0], bootstrap)
    ensures !SkipsCNI(cs)
  {
    hide Reconcile;
    forall k | 0 < k < |cs| && cs[k - 1].phase != Addons && cs[k].phase == Addons
      ensures IsInstalled(cs[k].addons, CILIUM)
    {
      RunStaysUnexposed(cs, bootstrap, steps, answers, k - 1);
      assert Reconcile(cs[k - 1], bootstrap, steps, answers[k - 1]) == Reconciled(cs[k]);
      AddonsWithoutCiliumIff(cs[k - 1], bootstrap, steps, answers[k - 1]);
    }
  }

  /** On a CLI-bootstrapped cluster an unknown phase is reset to the start of the other
      path, which Compute then leaves for Addons: CNI is never run. */
  lemma ResetSkipsCNI(c: Cluster, name: string, steps: seq<AddonStep>)
    requires c.phase == Unknown(name) && c.log == EMPTY_LOG && CILIUM !in c.addons
    ensures var c1 := Reconcile(c, Some(true), steps, Smooth(1)).cluster;
            var c2 := Reconcile(c1, Some(true), steps, Smooth(2)).cluster;
            var c3 := Reconcile(c2, Some(true), steps, Smooth(3)).cluster;
            var c4 := Reconcile(c3, Some(true), steps, Smooth(4)).cluster;
            && [c1.phase, c2.phase, c3.phase, c4.phase] == [Infrastructure, Image, Compute, Addons]
            && !IsInstalled(c4.addons, CILIUM)
  {
    hide Transitioned;
    var c1 := Reconcile(c, Some(true), steps, Smooth(1)).cluster;
    assert c1.phase == Infrastructure && c1.addons == c.addons;
    var c2 := Reconcile(c1, Some(true), steps, Smooth(2)).cluster;
    assert c2.phase == Image && c2.addons == c.addons;
    var c3 := Reconcile(c2, Some(true), steps, Smooth(3)).cluster;
    assert c3.phase == Compute && c3.addons == c.addons;
  }
}
