/** Creating workers in parallel. Phase one creates all servers, phase two
    configures the ones that came up; goroutines interleave within a phase. */
module WorkerScaleUp {
  import opened Sequences
  import opened Nodes
  import opened Steps
  import opened NodeGroups
  import opened Provisioning
  import opened Interleaving
  import opened Fleet

  function ProvisionScripts(attempts: seq<Attempt>): (r: seq<seq<Step>>)
    ensures |r| == |attempts|
  {
    seq(|attempts|, i requires 0 <= i < |attempts| => ProvisionSteps(attempts[i]))
  }

  function ConfigureScripts(attempts: seq<Attempt>): (r: seq<seq<Step>>)
    ensures |r| == |attempts|
  {
    seq(|attempts|, i requires 0 <= i < |attempts| => SetupSteps(Worker, attempts[i]))
  }

  function AttemptNames(attempts: seq<Attempt>): (r: seq<string>)
    ensures |r| == |attempts|
  {
    seq(|attempts|, i requires 0 <= i < |attempts| => attempts[i].name)
  }

  // The two schedules run every goroutine of their phase to its end.
  ghost predicate Scheduled(attempts: seq<Attempt>, s1: seq<nat>, s2: seq<nat>) {
    Complete(ProvisionScripts(attempts), s1) && Complete(ConfigureScripts(attempts), s2)
  }

  ghost function ScaleUpSteps(attempts: seq<Attempt>, s1: seq<nat>, s2: seq<nat>): seq<Step>
    requires Scheduled(attempts, s1, s2)
  {
    Interleave(ProvisionScripts(attempts), s1) + Interleave(ConfigureScripts(attempts), s2)
  }

  lemma ScriptsAreOwned(attempts: seq<Attempt>)
    requires Distinct(AttemptNames(attempts))
    ensures Owned(ProvisionScripts(attempts), AttemptNames(attempts))
    ensures Owned(ConfigureScripts(attempts), AttemptNames(attempts))
  {
    hide ProvisionSteps, SetupSteps;
    forall i | 0 <= i < |attempts|
      ensures NamedBy(ProvisionScripts(attempts)[i], attempts[i].name)
      ensures NamedBy(ConfigureScripts(attempts)[i], attempts[i].name)
    {
      ProvisionIsNamed(attempts[i]);
      AttemptIsNamed(Worker, attempts[i]);
    }
  }

  /** Whatever the schedule, each worker's steps are its attempt, in order. */
  lemma OwnInScaleUp(attempts: seq<Attempt>, s1: seq<nat>, s2: seq<nat>, name: string)
    requires Scheduled(attempts, s1, s2) && Distinct(AttemptNames(attempts))
    ensures forall i | 0 <= i < |attempts| && attempts[i].name == name ::
              Own(ScaleUpSteps(attempts, s1, s2), name) == AttemptSteps(Worker, attempts[i])
    ensures name !in AttemptNames(attempts) ==> Own(ScaleUpSteps(attempts, s1, s2), name) == []
  {
    hide Own, Interleave, ProvisionSteps, SetupSteps, Owned;
    var names := AttemptNames(attempts);
    ScriptsAreOwned(attempts);
    OwnInComplete(ProvisionScripts(attempts), names, s1, name);
    OwnInComplete(ConfigureScripts(attempts), names, s2, name);
    OwnConcat(Interleave(ProvisionScripts(attempts), s1), Interleave(ConfigureScripts(attempts), s2), name);
    assert forall i | 0 <= i < |attempts| && attempts[i].name == name :: names[i] == name;
  }

  // ---- Confluence -----------------------------------------------------------

  function SerialScripts(attempts: seq<Attempt>): (r: seq<seq<Step>>)
    ensures |r| == |attempts|
  {
    seq(|attempts|, i requires 0 <= i < |attempts| => AttemptSteps(Worker, attempts[i]))
  }

  // The same attempts with other clock readings.
  ghost predicate Retimed(a: seq<Attempt>, b: seq<Attempt>) {
    |a| == |b| && forall i | 0 <= i < |a| :: a[i] == b[i].(at := a[i].at)
  }

  lemma SameConcat(a: seq<Step>, b: seq<Step>, c: seq<Step>, d: seq<Step>)
    requires SameButForTime(a, b) && SameButForTime(c, d)
    ensures SameButForTime(a + c, b + d)
  {
  }

  lemma RetimedFailure(a: Attempt, b: Attempt)
    requires a == b.(at := a.at)
    ensures SameButForTime(FailureSteps(a), FailureSteps(b))
  {
  }

  lemma RetimedProvision(a: Attempt, b: Attempt)
    requires a == b.(at := a.at)
    ensures SameButForTime(ProvisionSteps(a), ProvisionSteps(b))
  {
    RetimedFailure(a, b);
    hide FailureSteps;
  }

  lemma RetimedConfigure(a: Attempt, b: Attempt)
    requires a == b.(at := a.at)
    ensures SameButForTime(ConfigureSteps(Worker, a), ConfigureSteps(Worker, b))
  {
    RetimedFailure(a, b);
    hide FailureSteps;
    assert SameButForTime(WaitSteps(Worker, a), WaitSteps(Worker, b));
    hide WaitSteps;
  }

  lemma RetimedSteps(a: Attempt, b: Attempt)
    requires a == b.(at := a.at)
    ensures SameButForTime(AttemptSteps(Worker, a), AttemptSteps(Worker, b))
  {
    RetimedProvision(a, b);
    RetimedConfigure(a, b);
    hide ProvisionSteps, ConfigureSteps;
    if a.server.Provisioned? {
      SameConcat([AddressStep(a)], [AddressStep(b)], ConfigureSteps(Worker, a), ConfigureSteps(Worker, b));
    }
    hide SameButForTime;
    SameConcat(ProvisionSteps(a), ProvisionSteps(b), SetupSteps(Worker, a), SetupSteps(Worker, b));
  }

  /** Parallel scale-up ends with the same node entries, up to order and clock
      readings, as creating the workers one after another; names stay unique and
      the entries that were there before are untouched. */
  lemma ScaleUpIsConfluent(list: seq<NodeStatus>, attempts: seq<Attempt>, s1: seq<nat>, s2: seq<nat>,
                           serial: seq<Attempt>)
    requires UniqueNames(list) && Distinct(AttemptNames(attempts))
    requires forall n | n in AttemptNames(attempts) :: n !in Names(list)
    requires Scheduled(attempts, s1, s2) && Retimed(attempts, serial)
    ensures var parallel := RunList(list, ScaleUpSteps(attempts, s1, s2));
            && UniqueNames(parallel)
            && list <= parallel
            && multiset(TimelessList(parallel)) ==
               multiset(TimelessList(RunList(list, Sequential(SerialScripts(serial)))))
  {
    hide RunList, Own, Interleave, Sequential, AttemptSteps, ScaleUpSteps, Names, UniqueNames, Scheduled;
    var steps, names := ScaleUpSteps(attempts, s1, s2), AttemptNames(attempts);
    SerialIsOwned(attempts, serial);
    forall n ensures SameButForTime(Own(steps, n), Own(Sequential(SerialScripts(serial)), n)) {
      OwnInScaleUp(attempts, s1, s2, n);
      OwnInSequential(SerialScripts(serial), names, n);
      if n in names {
        var i :| 0 <= i < |names| && names[i] == n;
        RetimedSteps(attempts[i], serial[i]);
      }
    }
    SameOwnSameEntries(list, steps, Sequential(SerialScripts(serial)));
    StepsAreOfAttempts(attempts, s1, s2);
    EarlierEntriesUntouched(list, steps);
  }

  lemma SerialIsOwned(attempts: seq<Attempt>, serial: seq<Attempt>)
    requires Distinct(AttemptNames(attempts)) && Retimed(attempts, serial)
    ensures Owned(SerialScripts(serial), AttemptNames(attempts))
  {
    hide AttemptSteps;
    forall i | 0 <= i < |attempts| ensures NamedBy(SerialScripts(serial)[i], attempts[i].name) {
      AttemptIsNamed(Worker, serial[i]);
    }
  }

  lemma StepsAreOfAttempts(attempts: seq<Attempt>, s1: seq<nat>, s2: seq<nat>)
    requires Scheduled(attempts, s1, s2) && Distinct(AttemptNames(attempts))
    ensures forall s | s in ScaleUpSteps(attempts, s1, s2) :: StepName(s) in AttemptNames(attempts)
  {
    hide ProvisionSteps, ConfigureSteps, Own, Interleave, ProvisionScripts, ConfigureScripts;
    ScriptsAreOwned(attempts);
    StepsAreOwned(ProvisionScripts(attempts), AttemptNames(attempts), s1);
    StepsAreOwned(ConfigureScripts(attempts), AttemptNames(attempts), s2);
  }

  lemma {:induction false} StepsAreOwned(scripts: seq<seq<Step>>, names: seq<string>, sched: seq<nat>)
    requires Owned(scripts, names) && Fits(scripts, sched)
    ensures forall s | s in Interleave(scripts, sched) :: StepName(s) in names
  {
    if sched != [] {
      var k := |sched| - 1;
      StepsAreOwned(scripts, names, sched[..k]);
      assert scripts[sched[k]][Taken(sched[..k], sched[k])] in scripts[sched[k]];
      assert names[sched[k]] in names;
    }
  }

  // ---- The fleet after a scale-up ---------------------------------------------

  ghost predicate AllClean(attempts: seq<Attempt>) {
    forall a | a in attempts :: Clean(a)
  }

  /** No server survives without its node object, whatever failed. */
  lemma ScaleUpKeepsServersRegistered(w: World, attempts: seq<Attempt>, s1: seq<nat>, s2: seq<nat>)
    requires Scheduled(attempts, s1, s2) && Distinct(AttemptNames(attempts)) && AllClean(attempts)
    requires forall n | n in AttemptNames(attempts) :: n !in w.servers
    requires w.servers <= w.registered
    ensures var after := ObserveAll(w, Effects(ScaleUpSteps(attempts, s1, s2)));
            && after.servers <= after.registered
            && after.servers == w.servers + (set a | a in attempts && Kept(Worker, a) :: a.name)
            && after.registered == w.registered + set a | a in attempts && Succeeds(a) :: a.name
  {
    hide Own, ObserveAll, RunPresence, AttemptSteps, ScaleUpSteps, Scheduled;
    var steps, names := ScaleUpSteps(attempts, s1, s2), AttemptNames(attempts);
    var after := ObserveAll(w, Effects(steps));
    forall n
      ensures n in after.servers <==> n in w.servers || exists a | a in attempts && Kept(Worker, a) :: a.name == n
      ensures n in after.servers ==> n in after.registered
      ensures n in after.registered <==>
              n in w.registered || exists a | a in attempts && Succeeds(a) :: a.name == n
    {
      WorldByName(w, steps, n);
      OwnInScaleUp(attempts, s1, s2, n);
      if n in names {
        var i :| 0 <= i < |names| && names[i] == n;
        assert attempts[i] in attempts;
        AttemptPresence(At(w, n), Worker, attempts[i]);
        forall a | a in attempts && a.name == n ensures a == attempts[i] {
          var j :| 0 <= j < |attempts| && attempts[j] == a;
          assert names[j] == n;
        }
      } else {
        NothingHappened(w, n);
        forall a | a in attempts ensures a.name in names {
          var j :| 0 <= j < |attempts| && attempts[j] == a;
          assert names[j] == a.name;
        }
      }
    }
  }

  /** At no moment of the scale-up are there more servers than were asked for. */
  lemma ScaleUpNeverOvershoots(w: World, attempts: seq<Attempt>, s1: seq<nat>, s2: seq<nat>, moment: nat, desired: nat)
    requires Scheduled(attempts, s1, s2) && Distinct(AttemptNames(attempts))
    requires moment <= |ScaleUpSteps(attempts, s1, s2)|
    requires |w.servers| + |attempts| <= desired
    ensures |ObserveAll(w, Effects(ScaleUpSteps(attempts, s1, s2)[..moment])).servers| <= desired
  {
    hide ObserveAll, ScaleUpSteps, Scheduled;
    var steps, names := ScaleUpSteps(attempts, s1, s2)[..moment], AttemptNames(attempts);
    StepsAreOfAttempts(attempts, s1, s2);
    ServersGrowByNames(w, steps);
    var grown := w.servers + set s | s in steps :: StepName(s);
    var bound := w.servers + set n | n in names;
    assert forall s | s in steps :: s in ScaleUpSteps(attempts, s1, s2);
    SubsetSize(ObserveAll(w, Effects(steps)).servers, bound);
    DistinctCount(names);
  }

  // ---- The operator's methods ----------------------------------------------

  /** The goroutines of one phase, each step atomic under the status mutex. */
  method RunGoroutines(g: NodeGroup, scripts: seq<seq<Step>>, sched: seq<nat>)
    requires g.Valid() && Fits(scripts, sched)
    modifies g, g.backing
    ensures g.Did(Interleave(scripts, sched))
  {
    hide Run;
    var k := 0;
    while k < |sched|
      invariant k <= |sched| && Fits(scripts, sched[..k]) && g.Did(Interleave(scripts, sched[..k]))
    {
      FitsPrefix(scripts, sched, k + 1);
      assert sched[..k + 1][..k] == sched[..k];
      g.Exec(scripts[sched[k]][Taken(sched[..k], sched[k])]);
      k := k + 1;
    }
    assert sched[..k] == sched;
  }

  lemma {:induction false} FitsPrefix(scripts: seq<seq<Step>>, sched: seq<nat>, k: nat)
    requires Fits(scripts, sched) && k <= |sched|
    ensures Fits(scripts, sched[..k])
  {
    if k < |sched| {
      FitsPrefix(scripts, sched[..|sched| - 1], k);
      assert sched[..|sched| - 1][..k] == sched[..k];
    } else {
      assert sched[..k] == sched;
    }
  }

  method ScaleUpWorkers(g: NodeGroup, prepared: bool, attempts: seq<Attempt>, s1: seq<nat>, s2: seq<nat>)
    returns (ok: bool)
    requires g.Valid() && Scheduled(attempts, s1, s2)
    modifies g, g.backing
    ensures g.Did(if prepared then ScaleUpSteps(attempts, s1, s2) else [])
    ensures ok <==> prepared && forall a | a in attempts :: Succeeds(a)
  {
    hide Run, Interleave, ProvisionScripts, ConfigureScripts, Fits, Taken;
    if !prepared {
      return false;
    }
    RunGoroutines(g, ProvisionScripts(attempts), s1);
    RunGoroutines(g, ConfigureScripts(attempts), s2);
    ok := CollectResults(attempts);
  }

  /** Whether as many workers were configured as were asked for. */
  method CollectResults(attempts: seq<Attempt>) returns (ok: bool)
    ensures ok <==> forall a | a in attempts :: Succeeds(a)
  {
    var configured := 0;
    for i := 0 to |attempts|
      invariant configured <= i
      invariant configured == i <==> forall j | 0 <= j < i :: Succeeds(attempts[j])
    {
      if attempts[i].server.Provisioned? && ConfigureSucceeds(attempts[i]) {
        configured := configured + 1;
      }
    }
    ok := configured >= |attempts|;
  }
}
