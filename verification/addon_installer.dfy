/** Installing the addons one call at a time, in a fixed order. */
module AddonInstaller {
  import opened Nodes
  import opened PhaseHistory

  datatype AddonStep = AddonStep(name: string, order: nat)

  // Which addons the configuration enables.
  datatype AddonConfig = AddonConfig(
    ccm: bool,
    csi: bool,
    metricsServer: bool,
    certManager: bool,
    traefik: bool,
    externalDNS: bool,
    argoCD: bool,
    monitoring: bool,
    talosBackup: bool)

  function AllSteps(): (steps: seq<AddonStep>)
    ensures |steps| == 9
  {
    [AddonStep("hcloud-ccm", 2), AddonStep("hcloud-csi", 3), AddonStep("metrics-server", 4),
     AddonStep("cert-manager", 5), AddonStep("traefik", 6), AddonStep("external-dns", 7),
     AddonStep("argocd", 8), AddonStep("monitoring", 9), AddonStep("talos-backup", 10)]
  }

  predicate IsEnabled(cfg: AddonConfig, order: nat) {
    match order
    case 2 => cfg.ccm
    case 3 => cfg.csi
    case 4 => cfg.metricsServer
    case 5 => cfg.certManager
    case 6 => cfg.traefik
    case 7 => cfg.externalDNS
    case 8 => cfg.argoCD
    case 9 => cfg.monitoring
    case 10 => cfg.talosBackup
    case _ => false
  }

  ghost predicate InOrder(steps: seq<AddonStep>) {
    forall i, j | 0 <= i < j < |steps| :: steps[i].order < steps[j].order
  }

  // The enabled ones among the first k.
  function Selected(cfg: AddonConfig, k: nat): seq<AddonStep>
    requires k <= 9
  {
    if k == 0 then []
    else Selected(cfg, k - 1) + if IsEnabled(cfg, AllSteps()[k - 1].order) then [AllSteps()[k - 1]] else []
  }

  lemma SelectOne(cfg: AddonConfig, all: seq<AddonStep>, k: nat, chosen: seq<AddonStep>)
    requires 0 < k <= |all| && InOrder(chosen)
    requires forall s :: s in chosen <==> s in all[..k - 1] && IsEnabled(cfg, s.order)
    requires forall s | s in all[..k - 1] :: s.order < all[k - 1].order
    ensures var next := chosen + if IsEnabled(cfg, all[k - 1].order) then [all[k - 1]] else [];
            InOrder(next) && forall s :: s in next <==> s in all[..k] && IsEnabled(cfg, s.order)
  {
    hide IsEnabled;
    assert all[..k] == all[..k - 1] + [all[k - 1]];
    forall i | 0 <= i < |chosen| ensures chosen[i] in all[..k - 1] { assert chosen[i] in chosen; }
  }

  lemma {:induction false} SelectedIs(cfg: AddonConfig, k: nat)
    requires k <= 9
    ensures InOrder(Selected(cfg, k))
    ensures forall s :: s in Selected(cfg, k) <==> s in AllSteps()[..k] && IsEnabled(cfg, s.order)
  {
    hide AllSteps, IsEnabled, InOrder;
    if k == 0 {
      NoneSelected(cfg);
    } else {
      SelectedIs(cfg, k - 1);
      EarlierOrders(k);
      SelectOne(cfg, AllSteps(), k, Selected(cfg, k - 1));
    }
  }

  lemma NoneSelected(cfg: AddonConfig)
    ensures Selected(cfg, 0) == [] && InOrder([])
  {
  }

  lemma EarlierOrders(k: nat)
    requires 0 < k <= 9
    ensures forall s | s in AllSteps()[..k - 1] :: s.order < AllSteps()[k - 1].order
  {
    StepsAscend();
    forall s | s in AllSteps()[..k - 1] ensures s.order < AllSteps()[k - 1].order {
      var i :| 0 <= i < k - 1 && AllSteps()[i] == s;
    }
  }

  lemma StepsAscend()
    ensures forall i, j | 0 <= i < j < 9 :: AllSteps()[i].order < AllSteps()[j].order
  {
  }

  lemma AllSelected(cfg: AddonConfig)
    ensures InOrder(Selected(cfg, 9))
    ensures forall s :: s in Selected(cfg, 9) <==> s in AllSteps() && IsEnabled(cfg, s.order)
  {
    SelectedIs(cfg, 9);
    assert AllSteps()[..9] == AllSteps();
  }

  // One more of the steps, in the order they are listed.
  function With(steps: seq<AddonStep>, on: bool, name: string, order: nat): seq<AddonStep> {
    if on then steps + [AddonStep(name, order)] else steps
  }

  lemma FirstFive(cfg: AddonConfig)
    ensures Selected(cfg, 5) ==
            With(With(With(With(With([], cfg.ccm, "hcloud-ccm", 2), cfg.csi, "hcloud-csi", 3),
                           cfg.metricsServer, "metrics-server", 4), cfg.certManager, "cert-manager", 5),
                 cfg.traefik, "traefik", 6)
  {
    assert Selected(cfg, 1) == With([], cfg.ccm, "hcloud-ccm", 2);
    assert Selected(cfg, 3) ==
           With(With(Selected(cfg, 1), cfg.csi, "hcloud-csi", 3), cfg.metricsServer, "metrics-server", 4);
  }

  lemma LastFour(cfg: AddonConfig)
    ensures Selected(cfg, 9) ==
            With(With(With(With(Selected(cfg, 5), cfg.externalDNS, "external-dns", 7), cfg.argoCD, "argocd", 8),
                      cfg.monitoring, "monitoring", 9), cfg.talosBackup, "talos-backup", 10)
  {
    assert Selected(cfg, 7) ==
           With(With(Selected(cfg, 5), cfg.externalDNS, "external-dns", 7), cfg.argoCD, "argocd", 8);
  }

  // The configuration asks for this step, by its own switch.
  predicate AskedFor(cfg: AddonConfig, s: AddonStep) {
    || (cfg.ccm && s == AddonStep("hcloud-ccm", 2))
    || (cfg.csi && s == AddonStep("hcloud-csi", 3))
    || (cfg.metricsServer && s == AddonStep("metrics-server", 4))
    || (cfg.certManager && s == AddonStep("cert-manager", 5))
    || (cfg.traefik && s == AddonStep("traefik", 6))
    || (cfg.externalDNS && s == AddonStep("external-dns", 7))
    || (cfg.argoCD && s == AddonStep("argocd", 8))
    || (cfg.monitoring && s == AddonStep("monitoring", 9))
    || (cfg.talosBackup && s == AddonStep("talos-backup", 10))
  }

  /** Each switch of the configuration selects its own addon. */
  lemma SelectedAreAskedFor(cfg: AddonConfig)
    ensures forall s :: s in Selected(cfg, 9) <==> AskedFor(cfg, s)
  {
    AllSelected(cfg);
    hide Selected, InOrder;
    forall s ensures s in Selected(cfg, 9) <==> AskedFor(cfg, s) {
      if s in AllSteps() {
        var k :| 0 <= k < 9 && AllSteps()[k] == s;
        SwitchOf(cfg, k);
      } else if AskedFor(cfg, s) {
        OfAllSteps(cfg, s);
      }
    }
  }

  lemma SwitchOf(cfg: AddonConfig, k: nat)
    requires k < 9
    ensures IsEnabled(cfg, AllSteps()[k].order) <==> AskedFor(cfg, AllSteps()[k])
  {
  }

  lemma OfAllSteps(cfg: AddonConfig, s: AddonStep)
    requires AskedFor(cfg, s)
    ensures s in AllSteps()
  {
    var all := AllSteps();
    assert all[0] in all && all[1] in all && all[2] in all && all[3] in all && all[4] in all;
    assert all[5] in all && all[6] in all && all[7] in all && all[8] in all;
  }

  /** Exactly the enabled addons, in installation order. */
  method EnabledSteps(cfg: AddonConfig) returns (steps: seq<AddonStep>)
    ensures steps == Selected(cfg, 9)
    ensures InOrder(steps) && (forall s :: s in steps <==> AskedFor(cfg, s))
  {
    AllSelected(cfg);
    SelectedAreAskedFor(cfg);
    hide AskedFor;
    LastFour(cfg);
    hide Selected, IsEnabled, InOrder;
    steps := FirstSteps(cfg);
    if cfg.externalDNS {
      steps := steps + [AddonStep("external-dns", 7)];
    }
    if cfg.argoCD {
      steps := steps + [AddonStep("argocd", 8)];
    }
    if cfg.monitoring {
      steps := steps + [AddonStep("monitoring", 9)];
    }
    if cfg.talosBackup {
      steps := steps + [AddonStep("talos-backup", 10)];
    }
  }

  method FirstSteps(cfg: AddonConfig) returns (steps: seq<AddonStep>)
    ensures steps == Selected(cfg, 5)
  {
    FirstFive(cfg);
    hide Selected;
    steps := [];
    if cfg.ccm {
      steps := steps + [AddonStep("hcloud-ccm", 2)];
    }
    if cfg.csi {
      steps := steps + [AddonStep("hcloud-csi", 3)];
    }
    if cfg.metricsServer {
      steps := steps + [AddonStep("metrics-server", 4)];
    }
    if cfg.certManager {
      steps := steps + [AddonStep("cert-manager", 5)];
    }
    if cfg.traefik {
      steps := steps + [AddonStep("traefik", 6)];
    }
  }

  // ---- One call of the installer ------------------------------------------------------

  datatype AddonPhase = NoAddonPhase | Pending | Installing | Installed | InstallFailed | Upgrading

  datatype AddonStatus = AddonStatus(
    installed: bool,
    healthy: bool,
    phase: AddonPhase,
    lastTransition: Option<nat>,
    installOrder: nat,
    startedAt: Option<nat>,
    duration: Option<int>,
    retryCount: nat,
    message: string)

  datatype Cluster = Cluster(phase: ProvisioningPhase, log: Log, addons: map<string, AddonStatus>)

  predicate IsInstalled(addons: map<string, AddonStatus>, name: string) {
    name in addons && addons[name].phase == Installed
  }

  function FirstMissing(addons: map<string, AddonStatus>, steps: seq<AddonStep>): (i: nat)
    ensures i <= |steps| && (i < |steps| ==> !IsInstalled(addons, steps[i].name))
    ensures forall j | 0 <= j < i :: IsInstalled(addons, steps[j].name)
  {
    if steps == [] || !IsInstalled(addons, steps[0].name) then 0 else 1 + FirstMissing(addons, steps[1..])
  }

  lemma FirstMissingIs(addons: map<string, AddonStatus>, steps: seq<AddonStep>, i: nat)
    requires i <= |steps| && (i < |steps| ==> !IsInstalled(addons, steps[i].name))
    requires forall j | 0 <= j < i :: IsInstalled(addons, steps[j].name)
    ensures FirstMissing(addons, steps) == i
  {
  }

  // What the installation of the step would answer (None: it succeeds), and the clock around it.
  datatype Call = Call(failure: Option<string>, start: nat, now: nat)

  function Retries(addons: map<string, AddonStatus>, name: string): nat {
    if name in addons then addons[name].retryCount else 0
  }

  function InstalledStatus(order: nat, start: nat, now: nat): AddonStatus {
    AddonStatus(true, true, Installed, Some(now), order, Some(start), Some(RoundSeconds(now - start)), 0, "")
  }

  function FailedStatus(order: nat, retries: nat, message: string, now: nat): AddonStatus {
    AddonStatus(false, false, InstallFailed, Some(now), order, None, None, retries, message)
  }

  function InstallNext(c: Cluster, steps: seq<AddonStep>, call: Call): Cluster {
    var i := FirstMissing(c.addons, steps);
    if i == |steps| then
      c.(phase := Complete, log := Transitioned(c.log, Complete, call.now))
    else
      var s := steps[i];
      match call.failure
      case None => c.(addons := c.addons[s.name := InstalledStatus(s.order, call.start, call.now)])
      case Some(message) =>
        Cluster(c.phase, Errored(c.log, ErrorRecord(call.now, c.phase, s.name, message)),
                c.addons[s.name := FailedStatus(s.order, Retries(c.addons, s.name) + 1, message, call.now)])
  }

  /** In seconds: 10, 30, then 60 every time. */
  function RetryBackoff(retries: nat): nat {
    if retries <= 1 then 10 else if retries == 2 then 30 else 60
  }

  /** Waiting times never shrink and never exceed a minute. */
  lemma BackoffGrows(a: nat, b: nat)
    requires a <= b
    ensures 10 <= RetryBackoff(a) <= RetryBackoff(b) <= 60
  {
  }

  /** The seconds waited over the first n failures of one addon. */
  function TotalWait(n: nat): nat {
    if n == 0 then 0 else TotalWait(n - 1) + RetryBackoff(n)
  }

  /** Ten seconds, then thirty, then a minute for every further failure. */
  lemma {:induction false} TotalWaitIs(n: nat)
    ensures TotalWait(n) == if n == 0 then 0 else if n == 1 then 10 else 40 + 60 * (n - 2)
  {
    if n > 0 { TotalWaitIs(n - 1); }
  }

  // ---- Runs of the installer ---------------------------------------------------------------

  ghost predicate DistinctSteps(steps: seq<AddonStep>) {
    forall i, j | 0 <= i < j < |steps| :: steps[i].name != steps[j].name
  }

  /** The installed ones among the steps are exactly the first p. */
  ghost predicate PrefixInstalled(addons: map<string, AddonStatus>, steps: seq<AddonStep>, p: nat) {
    p <= |steps| && forall i | 0 <= i < |steps| :: IsInstalled(addons, steps[i].name) <==> i < p
  }

  // The newest of the recorded errors.
  ghost predicate EndsWith(errors: seq<ErrorRecord>, e: ErrorRecord) {
    errors != [] && errors[|errors| - 1] == e
  }

  /** A call installs the first missing step or counts one more failure of it; every
      other addon's status stays as it was. */
  lemma {:induction false} CallTouchesFirstMissing(c: Cluster, steps: seq<AddonStep>, call: Call, p: nat)
    requires DistinctSteps(steps) && PrefixInstalled(c.addons, steps, p) && p < |steps|
    ensures var after := InstallNext(c, steps, call);
            && after.phase == c.phase && steps[p].name in after.addons
            && PrefixInstalled(after.addons, steps, if call.failure == None then p + 1 else p)
            && (call.failure.Some? ==> Retries(after.addons, steps[p].name) == Retries(c.addons, steps[p].name) + 1)
            && after.addons[steps[p].name].lastTransition == Some(call.now)
            && (call.failure == None ==>
                  && after.log == c.log && after.addons[steps[p].name].startedAt == Some(call.start)
                  && after.addons[steps[p].name].duration == Some(RoundSeconds(call.now - call.start)))
            && (call.failure.Some? ==> after.addons[steps[p].name].message == call.failure.value)
            && (call.failure.Some? ==>
                  EndsWith(after.log.lastErrors, ErrorRecord(call.now, c.phase, steps[p].name, call.failure.value)))
            && forall name | name != steps[p].name ::
                 && (name in after.addons <==> name in c.addons)
                 && (name in c.addons ==> after.addons[name] == c.addons[name])
  {
    FirstMissingIs(c.addons, steps, p);
  }

  /** Complete is reached exactly when all steps are installed. */
  lemma {:induction false} CompleteIffAllInstalled(c: Cluster, steps: seq<AddonStep>, call: Call)
    requires c.phase != Complete
    ensures InstallNext(c, steps, call).phase == Complete <==> forall s | s in steps :: IsInstalled(c.addons, s.name)
  {
    var i := FirstMissing(c.addons, steps);
    if i < |steps| { assert steps[i] in steps; }
  }

  /** The calls made while the cluster is not complete. */
  function RunCalls(c: Cluster, steps: seq<AddonStep>, calls: seq<Call>): Cluster {
    if calls == [] then c
    else
      var before := RunCalls(c, steps, calls[..|calls| - 1]);
      if before.phase == Complete then before else InstallNext(before, steps, calls[|calls| - 1])
  }

  function Failures(calls: seq<Call>): (n: nat)
    ensures n <= |calls|
  {
    if calls == [] then 0
    else Failures(calls[..|calls| - 1]) + if calls[|calls| - 1].failure.Some? then 1 else 0
  }

  /** As long as fewer installations succeeded than there are steps, the installed
      steps are the prefix of that length. */
  lemma {:induction false} InstallsInOrder(c: Cluster, steps: seq<AddonStep>, calls: seq<Call>)
    requires c.phase == Addons && DistinctSteps(steps) && PrefixInstalled(c.addons, steps, 0)
    requires forall k | 0 <= k < |calls| :: k - Failures(calls[..k]) < |steps|
    ensures RunCalls(c, steps, calls).phase == Addons
    ensures |calls| - Failures(calls) <= |steps|
    ensures PrefixInstalled(RunCalls(c, steps, calls).addons, steps, |calls| - Failures(calls))
  {
    if calls != [] {
      var k := |calls| - 1;
      var earlier := calls[..k];
      assert forall j | 0 <= j < k :: earlier[..j] == calls[..j];
      InstallsInOrder(c, steps, earlier);
      CallTouchesFirstMissing(RunCalls(c, steps, earlier), steps, calls[k], k - Failures(earlier));
    }
  }

  /** However often installations fail, it takes one call per step, one per failure
      and one more to get to Complete, and no fewer. */
  lemma {:induction false} CallsToComplete(c: Cluster, steps: seq<AddonStep>, calls: seq<Call>, last: Call)
    requires c.phase == Addons && DistinctSteps(steps) && PrefixInstalled(c.addons, steps, 0)
    requires forall k | 0 <= k < |calls| :: k - Failures(calls[..k]) < |steps|
    ensures RunCalls(c, steps, calls + [last]).phase == Complete <==> |calls| + 1 == |steps| + Failures(calls) + 1
  {
    InstallsInOrder(c, steps, calls);
    var before, p := RunCalls(c, steps, calls), |calls| - Failures(calls);
    assert (calls + [last])[..|calls|] == calls;
    assert RunCalls(c, steps, calls + [last]) == InstallNext(before, steps, last);
    if p < |steps| {
      CallTouchesFirstMissing(before, steps, last, p);
    } else {
      FirstMissingIs(before.addons, steps, p);
    }
  }

  /** With order numbers ascending the names of the enabled steps are distinct. */
  lemma EnabledAreDistinct(cfg: AddonConfig)
    ensures DistinctSteps(Selected(cfg, 9))
    ensures forall s | s in Selected(cfg, 9) :: s.name != "cilium"
  {
    AllSelected(cfg);
    AllNamesDiffer();
    var steps := Selected(cfg, 9);
    hide Selected, IsEnabled;
    forall i, j | 0 <= i < j < |steps| ensures steps[i].name != steps[j].name {
      assert steps[i] in AllSteps() && steps[j] in AllSteps();
    }
  }

  // A name tells its order: by its length, or by one of its letters.
  function OrderByName(name: string): nat {
    match |name|
    case 14 => 4
    case 7 => 6
    case 6 => if name[0] == 'a' then 8 else 1
    case 10 => if name[8] == 'c' then 2 else if name[8] == 's' then 3 else 9
    case 12 => if name[0] == 'c' then 5 else if name[0] == 'e' then 7 else 10
    case _ => 0
  }

  lemma NamesTellOrder()
    ensures forall k | 0 <= k < 9 :: OrderByName(AllSteps()[k].name) == AllSteps()[k].order
  {
    assert OrderByName("hcloud-ccm") == 2 && OrderByName("hcloud-csi") == 3 && OrderByName("metrics-server") == 4;
    assert OrderByName("cert-manager") == 5 && OrderByName("traefik") == 6 && OrderByName("external-dns") == 7;
    assert OrderByName("argocd") == 8 && OrderByName("monitoring") == 9 && OrderByName("talos-backup") == 10;
  }

  lemma AllNamesDiffer()
    ensures forall s, t | s in AllSteps() && t in AllSteps() && s.order != t.order :: s.name != t.name
    ensures forall s | s in AllSteps() :: s.name != "cilium"
  {
    NamesTellOrder();
    assert OrderByName("cilium") == 1;
    hide OrderByName;
    forall s | s in AllSteps() ensures OrderByName(s.name) == s.order && s.order >= 2 {
      var k :| 0 <= k < 9 && AllSteps()[k] == s;
    }
  }
}
