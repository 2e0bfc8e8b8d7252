/** Creating control planes: servers in parallel, configuration one by one. */
module ControlPlaneScaleUp {
  import opened Sequences
  import opened Nodes
  import opened Steps
  import opened NodeGroups
  import opened Provisioning
  import opened Interleaving
  import opened Fleet
  import opened Health
  import opened WorkerScaleUp
  import opened WorkerReconcile
  import opened WorkerPass
  import opened Healing
  import opened ControlPlaneHealing

  /** Phase two: the servers that came up, in order of arrival, until one fails. */
  function ConfigureInTurn(arrived: seq<Attempt>): seq<Step> {
    if arrived == [] then []
    else if !arrived[0].server.Provisioned? then ConfigureInTurn(arrived[1..])
    else
      SetupSteps(ControlPlane, arrived[0]) +
      if ConfigureSucceeds(arrived[0]) then ConfigureInTurn(arrived[1..]) else []
  }

  // Every server of phase one arrives exactly once, in some order.
  ghost predicate Arrival(attempts: seq<Attempt>, s1: seq<nat>, arrived: seq<Attempt>) {
    && Complete(ProvisionScripts(attempts), s1) && multiset(arrived) == multiset(attempts)
    && Distinct(AttemptNames(arrived))
  }

  ghost function ScaleUpCPSteps(attempts: seq<Attempt>, s1: seq<nat>, arrived: seq<Attempt>): seq<Step>
    requires Arrival(attempts, s1, arrived)
  {
    Interleave(ProvisionScripts(attempts), s1) + ConfigureInTurn(arrived)
  }

  // ---- No server is deleted once its configuration was applied --------------------

  predicate DeletesServer(s: Step, name: string) {
    s == Do(ServerDeleted(name)) || s == Do(ServerDeleteFailed(name))
  }

  ghost predicate NoDeletionAfterConfig(steps: seq<Step>) {
    forall i, j, n | 0 <= i < j < |steps| && steps[i] == Do(ConfigApplied(n)) :: !DeletesServer(steps[j], n)
  }

  predicate IsApply(s: Step) {
    s.Do? && s.effect.ConfigApplied?
  }

  lemma SafeConcat(a: seq<Step>, b: seq<Step>)
    requires NoDeletionAfterConfig(a) && NoDeletionAfterConfig(b)
    requires forall s, n | s in a && s == Do(ConfigApplied(n)) :: forall t | t in b :: StepName(t) != n
    ensures NoDeletionAfterConfig(a + b)
  {
    forall i, j, n | 0 <= i < j < |a + b| && (a + b)[i] == Do(ConfigApplied(n)) ensures !DeletesServer((a + b)[j], n) {
      if i < |a| <= j {
        assert a[i] in a && b[j - |a|] in b;
      }
    }
  }

  lemma SetupIsSafe(a: Attempt)
    ensures NoDeletionAfterConfig(SetupSteps(ControlPlane, a))
  {
    if a.server.Provisioned? {
      var steps := SetupSteps(ControlPlane, a);
      if a.config == GenerateFailed || a.config == ApplyFailed || a.config == NoTalosClients {
        assert forall s | s in steps :: !IsApply(s);
        assert forall i | 0 <= i < |steps| :: steps[i] in steps;
      } else {
        assert forall s | s in WaitSteps(ControlPlane, a) :: !DeletesServer(s, a.name);
        assert steps ==
               [AddressStep(a), Phase(a, ApplyingTalosConfig), Do(ConfigApplied(a.name))] + WaitSteps(ControlPlane, a);
        assert forall s | s in steps :: !DeletesServer(s, a.name);
        AttemptIsNamed(ControlPlane, a);
        assert forall i | 0 <= i < |steps| :: steps[i] in steps;
      }
    }
  }

  lemma {:induction false} TurnsAreNamed(arrived: seq<Attempt>)
    ensures forall s | s in ConfigureInTurn(arrived) :: StepName(s) in AttemptNames(arrived)
  {
    hide SetupSteps;
    if arrived != [] {
      TurnsAreNamed(arrived[1..]);
      AttemptIsNamed(ControlPlane, arrived[0]);
      assert AttemptNames(arrived) == [arrived[0].name] + AttemptNames(arrived[1..]);
    }
  }

  lemma {:induction false} TurnsAreSafe(arrived: seq<Attempt>)
    requires Distinct(AttemptNames(arrived))
    ensures NoDeletionAfterConfig(ConfigureInTurn(arrived))
  {
    hide SetupSteps, NoDeletionAfterConfig;
    if arrived == [] {
      assert NoDeletionAfterConfig([]) by { EmptyIsSafe(); }
    } else {
      var a, rest := arrived[0], arrived[1..];
      DistinctTail(arrived);
      TurnsAreSafe(rest);
      TurnsAreNamed(rest);
      if a.server.Provisioned? {
        SetupIsSafe(a);
        AttemptIsNamed(ControlPlane, a);
        if ConfigureSucceeds(a) {
          SafeConcat(SetupSteps(ControlPlane, a), ConfigureInTurn(rest));
        } else {
          assert SetupSteps(ControlPlane, a) + [] == SetupSteps(ControlPlane, a);
        }
      }
    }
  }

  lemma DistinctTail(arrived: seq<Attempt>)
    requires Distinct(AttemptNames(arrived)) && arrived != []
    ensures Distinct(AttemptNames(arrived[1..])) && arrived[0].name !in AttemptNames(arrived[1..])
  {
    var names, tail := AttemptNames(arrived), AttemptNames(arrived[1..]);
    assert names[0] == arrived[0].name && forall i | 0 <= i < |tail| :: tail[i] == names[i + 1];
  }

  lemma EmptyIsSafe()
    ensures NoDeletionAfterConfig([])
  {
  }

  lemma ProvisionNeverApplies(a: Attempt)
    ensures forall s | s in ProvisionSteps(a) :: !IsApply(s)
  {
    assert forall s | s in FailureSteps(a) :: !IsApply(s);
    hide FailureSteps;
  }

  lemma {:induction false} InterleavingNeverApplies(scripts: seq<seq<Step>>, sched: seq<nat>)
    requires Fits(scripts, sched) && forall i | 0 <= i < |scripts| :: forall s | s in scripts[i] :: !IsApply(s)
    ensures forall s | s in Interleave(scripts, sched) :: !IsApply(s)
  {
    if sched != [] {
      var k := |sched| - 1;
      InterleavingNeverApplies(scripts, sched[..k]);
      assert scripts[sched[k]][Taken(sched[..k], sched[k])] in scripts[sched[k]];
    }
  }

  lemma PhaseOneNeverApplies(attempts: seq<Attempt>, s1: seq<nat>)
    requires Fits(ProvisionScripts(attempts), s1)
    ensures forall s | s in Interleave(ProvisionScripts(attempts), s1) :: !IsApply(s)
  {
    hide ProvisionSteps, Interleave, Fits;
    forall i | 0 <= i < |attempts| ensures forall s | s in ProvisionScripts(attempts)[i] :: !IsApply(s) {
      ProvisionNeverApplies(attempts[i]);
    }
    InterleavingNeverApplies(ProvisionScripts(attempts), s1);
  }

  /** For every count, schedule and failure pattern: once a control plane's
      configuration was applied, its server is not deleted. */
  lemma ConfiguredServersArePreserved(attempts: seq<Attempt>, s1: seq<nat>, arrived: seq<Attempt>)
    requires Arrival(attempts, s1, arrived)
    ensures NoDeletionAfterConfig(ScaleUpCPSteps(attempts, s1, arrived))
  {
    hide ConfigureInTurn, Interleave, IsApply;
    var first := Interleave(ProvisionScripts(attempts), s1);
    PhaseOneNeverApplies(attempts, s1);
    TurnsAreSafe(arrived);
    NoApplyIsSafe(first);
    hide NoDeletionAfterConfig;
    SafeConcat(first, ConfigureInTurn(arrived));
  }

  lemma NoApplyIsSafe(steps: seq<Step>)
    requires forall s | s in steps :: !IsApply(s)
    ensures NoDeletionAfterConfig(steps)
    ensures forall n :: Do(ConfigApplied(n)) !in steps
  {
    assert forall i | 0 <= i < |steps| :: steps[i] in steps;
    forall n ensures Do(ConfigApplied(n)) !in steps { assert IsApply(Do(ConfigApplied(n))); }
  }

  // ---- At most one control plane is joining ---------------------------------------

  // Configured, and not ready yet.
  ghost predicate Joining(steps: seq<Step>, name: string) {
    Do(ConfigApplied(name)) in steps && Do(NodeBecameReady(name)) !in steps
  }

  ghost predicate AtMostOneJoining(steps: seq<Step>) {
    forall n, m | Joining(steps, n) && Joining(steps, m) :: n == m
  }

  lemma SetupJoins(a: Attempt, part: seq<Step>, n: string)
    requires part <= SetupSteps(ControlPlane, a)
    ensures Joining(part, n) ==> n == a.name
    ensures ConfigureSucceeds(a) ==> !Joining(SetupSteps(ControlPlane, a), n)
  {
    AttemptIsNamed(ControlPlane, a);
    var steps := SetupSteps(ControlPlane, a);
    assert forall s | s in part :: s in steps;
    if a.server.Provisioned? && a.config == Configured {
      assert WaitSteps(ControlPlane, a)[2] == Do(NodeBecameReady(a.name));
      assert ConfigureSteps(ControlPlane, a)[4] == Do(NodeBecameReady(a.name));
      assert steps[5] == Do(NodeBecameReady(a.name));
    } else if a.server.Provisioned? && a.config == NoTalosClients {
      assert forall s | s in steps :: !IsApply(s);
      NoApplyIsSafe(steps);
    } else if !a.server.Provisioned? {
      assert part == [];
    }
  }

  lemma {:induction false} TurnsJoinOneByOne(arrived: seq<Attempt>, part: seq<Step>)
    requires part <= ConfigureInTurn(arrived)
    ensures AtMostOneJoining(part)
  {
    hide SetupSteps, AtMostOneJoining, Joining;
    if arrived == [] {
      assert part == [];
      NothingJoins();
    } else if !arrived[0].server.Provisioned? {
      TurnsJoinOneByOne(arrived[1..], part);
    } else {
      var a := arrived[0];
      var steps := SetupSteps(ControlPlane, a);
      if |part| <= |steps| {
        assert part <= steps;
        OneSetupJoins(a, part);
      } else {
        var rest := part[|steps|..];
        assert part == steps + rest && rest <= ConfigureInTurn(arrived[1..]);
        TurnsJoinOneByOne(arrived[1..], rest);
        JoinsAfter(steps, rest, a);
      }
    }
  }

  lemma NothingJoins()
    ensures AtMostOneJoining([])
  {
  }

  lemma OneSetupJoins(a: Attempt, part: seq<Step>)
    requires part <= SetupSteps(ControlPlane, a)
    ensures AtMostOneJoining(part)
  {
    hide SetupSteps;
    forall n, m | Joining(part, n) && Joining(part, m) ensures n == m {
      SetupJoins(a, part, n);
      SetupJoins(a, part, m);
    }
  }

  lemma JoinsAfter(steps: seq<Step>, rest: seq<Step>, a: Attempt)
    requires steps == SetupSteps(ControlPlane, a) && ConfigureSucceeds(a) && AtMostOneJoining(rest)
    ensures AtMostOneJoining(steps + rest)
  {
    hide SetupSteps;
    forall n | Joining(steps + rest, n) ensures Joining(rest, n) {
      SetupJoins(a, steps, n);
    }
  }

  /** At every moment of the scale-up at most one control plane has been configured
      and is not ready yet. */
  lemma OneJoinerAtATime(attempts: seq<Attempt>, s1: seq<nat>, arrived: seq<Attempt>, moment: nat)
    requires Arrival(attempts, s1, arrived) && moment <= |ScaleUpCPSteps(attempts, s1, arrived)|
    ensures AtMostOneJoining(ScaleUpCPSteps(attempts, s1, arrived)[..moment])
  {
    var first := Interleave(ProvisionScripts(attempts), s1);
    var part := ScaleUpCPSteps(attempts, s1, arrived)[..moment];
    hide ConfigureInTurn, Interleave, AtMostOneJoining, IsApply;
    PhaseOneNeverApplies(attempts, s1);
    NoApplyIsSafe(first);
    hide Joining;
    if moment <= |first| {
      assert part == first[..moment];
      NoneJoining(part);
    } else {
      var rest := part[|first|..];
      assert part == first + rest && rest <= ConfigureInTurn(arrived);
      TurnsJoinOneByOne(arrived, rest);
      QuietBefore(first, rest);
    }
  }

  lemma NoneJoining(steps: seq<Step>)
    requires forall n :: Do(ConfigApplied(n)) !in steps
    ensures AtMostOneJoining(steps)
  {
  }

  lemma QuietBefore(first: seq<Step>, rest: seq<Step>)
    requires (forall n :: Do(ConfigApplied(n)) !in first) && AtMostOneJoining(rest)
    ensures AtMostOneJoining(first + rest)
  {
    forall n | Joining(first + rest, n) ensures Joining(rest, n) {}
  }

  // ---- It stops at the first configure failure -----------------------------------------

  predicate Fails(a: Attempt) {
    a.server.Provisioned? && !ConfigureSucceeds(a)
  }

  /** Nothing after the first configure failure is touched. */
  lemma {:induction false} StopsAtFirstFailure(arrived: seq<Attempt>, k: nat)
    requires k < |arrived| && Fails(arrived[k]) && forall j | 0 <= j < k :: !Fails(arrived[j])
    ensures ConfigureInTurn(arrived) == ConfigureInTurn(arrived[..k + 1])
  {
    hide SetupSteps;
    assert arrived[..k + 1][0] == arrived[0];
    if k > 0 {
      StopsAtFirstFailure(arrived[1..], k - 1);
      assert arrived[1..][..k] == arrived[..k + 1][1..];
    }
  }

  // ---- The operator's methods ---------------------------------------------------------

  method ScaleUpControlPlanes(g: NodeGroup, prepared: bool, attempts: seq<Attempt>, s1: seq<nat>, arrived: seq<Attempt>)
    returns (ok: bool)
    requires g.Valid() && Arrival(attempts, s1, arrived)
    modifies g, g.backing
    ensures g.Did(if prepared then ScaleUpCPSteps(attempts, s1, arrived) else [])
    ensures ok <==> prepared && forall a | a in attempts :: Succeeds(a)
  {
    hide Run, Interleave, ConfigureInTurn, SetupSteps;
    if !prepared {
      return false;
    }
    assert |arrived| == |attempts| && forall a :: a in attempts <==> a in arrived by {
      Rearranged(attempts, arrived);
    }
    RunGoroutines(g, ProvisionScripts(attempts), s1);
    ok := ConfigureServers(g, arrived);
  }

  lemma Rearranged(a: seq<Attempt>, b: seq<Attempt>)
    requires multiset(a) == multiset(b)
    ensures |a| == |b| && forall x :: x in a <==> x in b
  {
    assert |a| == |multiset(a)| && |b| == |multiset(b)|;
    forall x ensures x in a <==> x in b { assert x in multiset(a) <==> x in multiset(b); }
  }

  method ConfigureServers(g: NodeGroup, arrived: seq<Attempt>) returns (ok: bool)
    requires g.Valid()
    modifies g, g.backing
    ensures g.Did(ConfigureInTurn(arrived))
    ensures ok <==> forall a | a in arrived :: Succeeds(a)
  {
    hide Run, ConfigureInTurn, SetupSteps, ConfigureSucceeds;
    var configured, k := 0, 0;
    ghost var done := [];
    assert arrived[0..] == arrived;
    while k < |arrived|
      invariant configured <= k <= |arrived| && g.Did(done)
      invariant configured == k <==> forall j | 0 <= j < k :: Succeeds(arrived[j])
      invariant ConfigureInTurn(arrived) == done + ConfigureInTurn(arrived[k..])
    {
      var a := arrived[k];
      TurnUnfolds(arrived[k..]);
      assert arrived[k..][1..] == arrived[k + 1..];
      if a.server.Provisioned? {
        done := done + SetupSteps(ControlPlane, a);
        var configuredOk := SetUpServer(g, ControlPlane, a);
        if !configuredOk {
          assert done + [] == done;
          assert !Succeeds(arrived[k]) && arrived[k] in arrived;
          return false;
        }
        configured := configured + 1;
      }
      k := k + 1;
    }
    TurnsEnd(arrived[k..]);
    assert done + [] == done;
    ok := configured >= |arrived|;
  }

  lemma TurnUnfolds(arrived: seq<Attempt>)
    requires arrived != []
    ensures var a, rest := arrived[0], ConfigureInTurn(arrived[1..]);
            ConfigureInTurn(arrived) ==
            if !a.server.Provisioned? then rest
            else SetupSteps(ControlPlane, a) + if ConfigureSucceeds(a) then rest else []
  {
  }

  lemma TurnsEnd(arrived: seq<Attempt>)
    requires arrived == []
    ensures ConfigureInTurn(arrived) == []
  {
  }

  // ---- The fleet after a control-plane scale-up -------------------------------------------

  // No earlier arrival failed, so this one's turn came.
  predicate Reached(arrived: seq<Attempt>, i: nat)
    requires i < |arrived|
  {
    forall j | 0 <= j < i :: !Fails(arrived[j])
  }

  lemma {:induction false} OwnInTurns(arrived: seq<Attempt>, i: nat)
    requires Distinct(AttemptNames(arrived)) && i < |arrived|
    ensures Own(ConfigureInTurn(arrived), arrived[i].name) ==
            if Reached(arrived, i) then SetupSteps(ControlPlane, arrived[i]) else []
  {
    hide SetupSteps, Own, AttemptNames, Distinct;
    var a, rest, n := arrived[0], arrived[1..], arrived[i].name;
    DistinctTail(arrived);
    TurnsOfStrangers(rest, a.name);
    AttemptIsNamed(ControlPlane, a);
    hide NamedBy;
    OwnOfNamed(SetupSteps(ControlPlane, a), a.name, n);
    OwnConcat(SetupSteps(ControlPlane, a), ConfigureInTurn(rest), n);
    OwnNone([], n);
    if i > 0 {
      OwnInTurns(rest, i - 1);
      NamesDiffer(arrived, i);
      assert Reached(arrived, i) <==> !Fails(a) && Reached(rest, i - 1);
    } else if !a.server.Provisioned? {
      NotProvisioned(a);
    }
    assert SetupSteps(ControlPlane, a) + [] == SetupSteps(ControlPlane, a);
  }

  lemma NotProvisioned(a: Attempt)
    requires !a.server.Provisioned?
    ensures SetupSteps(ControlPlane, a) == []
  {
  }

  lemma NamesDiffer(arrived: seq<Attempt>, i: nat)
    requires Distinct(AttemptNames(arrived)) && 0 < i < |arrived|
    ensures arrived[i].name != arrived[0].name
  {
    assert AttemptNames(arrived)[0] != AttemptNames(arrived)[i];
  }

  lemma TurnsOfStrangers(arrived: seq<Attempt>, n: string)
    requires n !in AttemptNames(arrived)
    ensures Own(ConfigureInTurn(arrived), n) == []
  {
    TurnsAreNamed(arrived);
    OwnNone(ConfigureInTurn(arrived), n);
  }

  lemma OwnInPhaseOne(attempts: seq<Attempt>, s1: seq<nat>, arrived: seq<Attempt>, n: string)
    requires Arrival(attempts, s1, arrived)
    ensures forall i | 0 <= i < |arrived| && arrived[i].name == n ::
              Own(Interleave(ProvisionScripts(attempts), s1), n) == ProvisionSteps(arrived[i])
    ensures n !in AttemptNames(arrived) ==> Own(Interleave(ProvisionScripts(attempts), s1), n) == []
  {
    hide Own, Interleave, ProvisionSteps, Owned, Distinct;
    Rearranged(attempts, arrived);
    SameNamesDistinct(attempts, arrived);
    ScriptsAreOwned(attempts);
    OwnInComplete(ProvisionScripts(attempts), AttemptNames(attempts), s1, n);
    forall i | 0 <= i < |arrived| && arrived[i].name == n
      ensures Own(Interleave(ProvisionScripts(attempts), s1), n) == ProvisionSteps(arrived[i])
    {
      assert arrived[i] in attempts;
      var j :| 0 <= j < |attempts| && attempts[j] == arrived[i];
      assert AttemptNames(attempts)[j] == n;
    }
    if n in AttemptNames(attempts) {
      var j :| 0 <= j < |attempts| && AttemptNames(attempts)[j] == n;
      assert attempts[j] in arrived;
      var i :| 0 <= i < |arrived| && arrived[i] == attempts[j];
      assert AttemptNames(arrived)[i] == n;
    }
  }

  lemma SameNamesDistinct(attempts: seq<Attempt>, arrived: seq<Attempt>)
    requires multiset(arrived) == multiset(attempts) && Distinct(AttemptNames(arrived))
    ensures Distinct(AttemptNames(attempts))
  {
    var names, other := AttemptNames(attempts), AttemptNames(arrived);
    forall i, j | 0 <= i < j < |attempts| ensures names[i] != names[j] {
      if attempts[i].name == attempts[j].name {
        assert attempts[i] in multiset(arrived) && attempts[j] in multiset(arrived);
        var x :| 0 <= x < |arrived| && arrived[x] == attempts[i];
        var y :| 0 <= y < |arrived| && arrived[y] == attempts[j];
        assert other[x] == other[y];
        Twice(attempts, i, j);
        OnceThere(arrived, arrived[x]);
      }
    }
  }

  lemma {:induction false} OnceThere(s: seq<Attempt>, a: Attempt)
    requires Distinct(AttemptNames(s))
    ensures multiset(s)[a] <= 1
  {
    if s != [] {
      var t := s[1..];
      DistinctTail(s);
      OnceThere(t, a);
      assert s == [s[0]] + t;
      forall y | 0 <= y < |t| ensures t[y] != s[0] { assert AttemptNames(t)[y] == t[y].name; }
    }
  }

  /** What a control-plane attempt leaves: a server that came up stays, unless its
      configuration could not be made or applied. */
  function Stands(arrived: seq<Attempt>, i: nat): bool
    requires i < |arrived|
  {
    arrived[i].server.Provisioned? && (Reached(arrived, i) ==> Kept(ControlPlane, arrived[i]))
  }

  lemma OwnOfArrival(attempts: seq<Attempt>, s1: seq<nat>, arrived: seq<Attempt>, i: nat)
    requires Arrival(attempts, s1, arrived) && i < |arrived|
    ensures Own(ScaleUpCPSteps(attempts, s1, arrived), arrived[i].name) ==
            ProvisionSteps(arrived[i]) + if Reached(arrived, i) then SetupSteps(ControlPlane, arrived[i]) else []
  {
    hide Own, Interleave, ProvisionSteps, SetupSteps, ConfigureInTurn, AttemptNames;
    var n := arrived[i].name;
    OwnInPhaseOne(attempts, s1, arrived, n);
    OwnInTurns(arrived, i);
    OwnConcat(Interleave(ProvisionScripts(attempts), s1), ConfigureInTurn(arrived), n);
  }

  lemma PresenceOfArrival(p: Presence, arrived: seq<Attempt>, i: nat)
    requires i < |arrived| && !p.live && Clean(arrived[i])
    ensures var setup := if Reached(arrived, i) then SetupSteps(ControlPlane, arrived[i]) else [];
            var steps := ProvisionSteps(arrived[i]) + setup;
            && RunPresence(p, steps).live == Stands(arrived, i)
            && (RunPresence(p, steps).registered <==> p.registered || (Reached(arrived, i) && Succeeds(arrived[i])))
  {
    hide RunPresence, ProvisionSteps, SetupSteps;
    var a := arrived[i];
    if Reached(arrived, i) {
      AttemptPresence(p, ControlPlane, a);
    } else {
      ProvisionPresence(p, a);
      assert ProvisionSteps(a) + [] == ProvisionSteps(a);
    }
  }

  /** The servers and node objects after a control-plane scale-up. */
  lemma WorldAfterCPScaleUp(w: World, attempts: seq<Attempt>, s1: seq<nat>, arrived: seq<Attempt>, n: string)
    requires Arrival(attempts, s1, arrived) && AllClean(arrived)
    requires forall m | m in AttemptNames(arrived) :: m !in w.servers
    ensures var after := ObserveAll(w, Effects(ScaleUpCPSteps(attempts, s1, arrived)));
            && (n !in AttemptNames(arrived) ==> At(after, n) == At(w, n))
            && forall i | 0 <= i < |arrived| && arrived[i].name == n ::
                 && (n in after.servers <==> Stands(arrived, i))
                 && (n in after.registered <==> n in w.registered || (Reached(arrived, i) && Succeeds(arrived[i])))
  {
    hide Own, ObserveAll, RunPresence, ScaleUpCPSteps, ProvisionSteps, SetupSteps, Stands, Reached, Arrival;
    var steps := ScaleUpCPSteps(attempts, s1, arrived);
    WorldByName(w, steps, n);
    if n !in AttemptNames(arrived) {
      UntouchedName(attempts, s1, arrived, n);
      NothingHappened(w, n);
    }
    forall i | 0 <= i < |arrived| && arrived[i].name == n
      ensures n in ObserveAll(w, Effects(steps)).servers <==> Stands(arrived, i)
      ensures n in ObserveAll(w, Effects(steps)).registered <==>
              n in w.registered || (Reached(arrived, i) && Succeeds(arrived[i]))
    {
      assert AttemptNames(arrived)[i] == n && arrived[i] in arrived;
      OwnOfArrival(attempts, s1, arrived, i);
      PresenceOfArrival(At(w, n), arrived, i);
    }
  }

  lemma UntouchedName(attempts: seq<Attempt>, s1: seq<nat>, arrived: seq<Attempt>, n: string)
    requires Arrival(attempts, s1, arrived) && n !in AttemptNames(arrived)
    ensures Own(ScaleUpCPSteps(attempts, s1, arrived), n) == []
  {
    hide Own, Interleave, ConfigureInTurn, AttemptNames;
    OwnInPhaseOne(attempts, s1, arrived, n);
    TurnsOfStrangers(arrived, n);
    OwnConcat(Interleave(ProvisionScripts(attempts), s1), ConfigureInTurn(arrived), n);
  }

  // ---- Surplus control planes -----------------------------------------------------------

  /** When a scale-up reaches its goal, there are more control-plane servers than
      desired exactly when there were already more servers than listed nodes. */
  lemma SurplusIffUnlistedServer(list: seq<NodeStatus>, w: World, attempts: seq<Attempt>, s1: seq<nat>,
                                 arrived: seq<Attempt>, desired: nat)
    requires Arrival(attempts, s1, arrived) && AllClean(arrived) && |list| + |attempts| == desired
    requires forall m | m in AttemptNames(arrived) :: m !in w.servers
    requires forall a | a in arrived :: Succeeds(a)
    ensures var after := ObserveAll(w, Effects(ScaleUpCPSteps(attempts, s1, arrived)));
            && after.servers == w.servers + set n | n in AttemptNames(arrived)
            && (|after.servers| > desired <==> |w.servers| > |list|)
  {
    hide ObserveAll, ScaleUpCPSteps, Arrival;
    var after := ObserveAll(w, Effects(ScaleUpCPSteps(attempts, s1, arrived)));
    var names := set n | n in AttemptNames(arrived);
    forall n ensures n in after.servers <==> n in w.servers + names {
      WorldAfterCPScaleUp(w, attempts, s1, arrived, n);
      if n in AttemptNames(arrived) {
        var i :| 0 <= i < |arrived| && AttemptNames(arrived)[i] == n;
        assert arrived[i] in arrived;
        assert Stands(arrived, i);
      }
    }
    assert after.servers == w.servers + names;
    CountArrived(attempts, s1, arrived);
    assert w.servers !! names;
  }

  lemma CountArrived(attempts: seq<Attempt>, s1: seq<nat>, arrived: seq<Attempt>)
    requires Arrival(attempts, s1, arrived)
    ensures |set n | n in AttemptNames(arrived)| == |attempts|
  {
    DistinctCount(AttemptNames(arrived));
    Rearranged(attempts, arrived);
  }

  // ---- One pass over the control planes ------------------------------------------------

  // What a pass meets: the schedules and answers for n new servers, and for a replacement.
  datatype CPAnswers = CPAnswers(
    prepared: bool,
    supply: nat -> seq<Attempt>,
    first: nat -> seq<nat>,
    arrival: nat -> seq<Attempt>,
    heal: CPHeal)

  ghost predicate CPConsistent(ans: CPAnswers) {
    forall n: nat {:trigger ans.supply(n)} ::
      |ans.supply(n)| == n && Arrival(ans.supply(n), ans.first(n), ans.arrival(n))
  }

  ghost function CPSteps(list: seq<NodeStatus>, ready: nat, desired: nat, threshold: int, now: nat,
                         ans: CPAnswers): seq<Step>
    requires CPConsistent(ans)
  {
    if CountEarly(list) > 0 then []
    else if |list| < desired then
      var n := desired - |list|;
      if ans.prepared then ScaleUpCPSteps(ans.supply(n), ans.first(n), ans.arrival(n)) else []
    else if desired == 1 then []
    else MaybeReplaceSteps(list, ready, desired, threshold, now, ans.heal)
  }

  /** A pass that finds one node missing and adds one control plane. */
  lemma OneMoreControlPlane(w: World, list: seq<NodeStatus>, ready: nat, desired: nat, threshold: int, now: nat,
                            ans: CPAnswers, a: Attempt)
    requires CPConsistent(ans) && ans.prepared && CountEarly(list) == 0 && |list| + 1 == desired
    requires ans.arrival(1) == [a] && Clean(a) && a.name !in w.servers
    ensures var after := ObserveAll(w, Effects(CPSteps(list, ready, desired, threshold, now, ans)));
            && after.servers == w.servers + (if Kept(ControlPlane, a) then {a.name} else {})
            && after.registered == w.registered + (if Succeeds(a) then {a.name} else {})
  {
    hide ObserveAll, ScaleUpCPSteps, Arrival, CountEarly, Clean, Kept, MaybeReplaceSteps;
    assert |ans.supply(1)| == 1;
    var after := ObserveAll(w, Effects(CPSteps(list, ready, desired, threshold, now, ans)));
    assert AttemptNames([a]) == [a.name] && [a][0] == a;
    forall n
      ensures n in after.servers <==> n in w.servers + (if Kept(ControlPlane, a) then {a.name} else {})
      ensures n in after.registered <==> n in w.registered + (if Succeeds(a) then {a.name} else {})
    {
      WorldAfterCPScaleUp(w, ans.supply(1), ans.first(1), ans.arrival(1), n);
      assert Reached([a], 0) && (Stands([a], 0) <==> Kept(ControlPlane, a)) by { KeptIsProvisioned(a); }
      assert At(after, n).live == (n in after.servers) && At(w, n).live == (n in w.servers);
      assert At(after, n).registered == (n in after.registered) && At(w, n).registered == (n in w.registered);
    }
  }

  lemma KeptIsProvisioned(a: Attempt)
    ensures Kept(ControlPlane, a) ==> a.server.Provisioned?
  {
  }

  /** The health check lists the registered nodes without phases, so the guard
      against duplicates is silent, and a control plane that was kept after missing
      its deadline is created again: one more server than desired. */
  lemma TimedOutControlPlaneIsDuplicated(w: World, kube: seq<KubeNode>, ready: nat, desired: nat, threshold: int,
                                         now: nat, ans1: CPAnswers, ans2: CPAnswers, first: Attempt, second: Attempt)
    requires w.servers == w.registered && |kube| + 1 == desired
    requires UniqueNames(ObservedAll(kube)) && Names(ObservedAll(kube)) == w.registered
    requires CPConsistent(ans1) && ans1.prepared && ans1.arrival(1) == [first]
    requires CPConsistent(ans2) && ans2.prepared && ans2.arrival(1) == [second]
    requires first.name !in w.servers && second.name !in w.servers && first.name != second.name
    requires Clean(first) && first.server.Provisioned? && first.config == NotReadyInTime
    requires Clean(second) && Succeeds(second)
    ensures var list := ObservedAll(kube);
            var w1 := ObserveAll(w, Effects(CPSteps(list, ready, desired, threshold, now, ans1)));
            var w2 := ObserveAll(w1, Effects(CPSteps(list, ready, desired, threshold, now, ans2)));
            && w1.registered == Names(list)
            && w2.servers == w.servers + {first.name, second.name}
            && |w2.servers| == desired + 1
  {
    var list := ObservedAll(kube);
    GuardNeverFiresAfterRebuild(kube);
    NamesCount(list);
    assert |w.servers| + 1 == desired;
    assert !Succeeds(first) && Kept(ControlPlane, first) && Kept(ControlPlane, second);
    TwoMore(w.servers, first.name, second.name);
    hide ObservedAll, Succeeds, ObserveAll, CPSteps, Names, UniqueNames, CountEarly, Clean, Kept, CPConsistent;
    OneMoreControlPlane(w, list, ready, desired, threshold, now, ans1, first);
    var w1 := ObserveAll(w, Effects(CPSteps(list, ready, desired, threshold, now, ans1)));
    OneMoreControlPlane(w1, list, ready, desired, threshold, now, ans2, second);
  }

  lemma TwoMore(s: set<string>, a: string, b: string)
    requires a !in s && b !in s && a != b
    ensures |s + {a, b}| == |s| + 2 && s + {a} + {b} == s + {a, b}
  {
    assert s + {a, b} == s + {a} + {b};
  }

  // A pass reaches the replacement check when no entry is early and none is missing;
  // a single control plane is never replaced.
  predicate ChecksReplacement(list: seq<NodeStatus>, desired: nat) {
    CountEarly(list) == 0 && |list| >= desired && desired != 1
  }

  // The check finds a node past the threshold and the quorum to replace it.
  predicate Replaces(list: seq<NodeStatus>, ready: nat, desired: nat, threshold: int, now: nat) {
    ChecksReplacement(list, desired) && PastThresholdPointers(list, threshold, now) != [] && Gate(ready, desired)
  }

  /** A pass fails only when a replacement it started fails. */
  predicate CPSucceeds(list: seq<NodeStatus>, ready: nat, desired: nat, threshold: int, now: nat, ans: CPAnswers) {
    Replaces(list, ready, desired, threshold, now) ==> ReplaceSucceeds(ans.heal.rest)
  }

  function CPRequeue(list: seq<NodeStatus>, ready: nat, desired: nat, threshold: int, now: nat,
                     ans: CPAnswers): Requeue
  {
    if CountEarly(list) > 0 then Default
    else if |list| < desired then Fast
    else if !ChecksReplacement(list, desired) || PastThresholdPointers(list, threshold, now) == [] then NoRequeue
    else if CPSucceeds(list, ready, desired, threshold, now, ans) then Default
    else NoRequeue
  }

  method ReconcileControlPlanes(g: NodeGroup, ready: nat, desired: nat, threshold: int, now: nat, ans: CPAnswers)
    returns (requeue: Requeue, ok: bool)
    requires g.Valid() && CPConsistent(ans)
    modifies g, g.backing
    ensures g.Valid()
    ensures g.effects == old(g.effects) + Effects(CPSteps(old(g.List()), ready, desired, threshold, now, ans))
    ensures g.List() == RunList(old(g.List()), CPSteps(old(g.List()), ready, desired, threshold, now, ans))
    ensures requeue == CPRequeue(old(g.List()), ready, desired, threshold, now, ans)
    ensures ok == CPSucceeds(old(g.List()), ready, desired, threshold, now, ans)
  {
    hide Run, RunList, MaybeReplaceSteps, ScaleUpCPSteps, Arrival, CountEarly, PastThresholdPointers, Gate;
    var currentCount := g.length;
    ghost var list, trace, before := g.List(), g.trace, g.View();
    assert Contents(before.mem) == list;
    NoSteps(list);
    var provisioning := CountWorkersInEarlyProvisioning(g.backing[..g.length]);
    if provisioning > 0 {
      return Default, true;
    }
    if currentCount < desired {
      var n := desired - currentCount;
      assert |ans.supply(n)| == n;
      var _ := ScaleUpControlPlanes(g, ans.prepared, ans.supply(n), ans.first(n), ans.arrival(n));
      DidMeans(g, trace, before, CPSteps(list, ready, desired, threshold, now, ans));
      return Fast, true;
    }
    if desired == 1 {
      return NoRequeue, true;
    }
    requeue, ok := ReplaceUnhealthyCPIfNeeded(g, ready, desired, threshold, now, ans.heal);
  }
}
