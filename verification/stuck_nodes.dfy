/** Nodes that stay in one phase for too long, and their removal. */
module StuckNodes {
  import opened Nodes
  import opened Steps
  import opened NodeGroups
  import opened Provisioning
  import opened Interleaving
  import opened AttemptResults
  import opened WorkerPass

  // ---- When a listed node entered its phase -----------------------------------

  function UpdatesOf(steps: seq<Step>): seq<NodeUpdate> {
    if steps == [] then []
    else
      var s := steps[|steps| - 1];
      UpdatesOf(steps[..|steps| - 1]) + if s.Update? then [s.update] else []
  }

  function TimesOf(steps: seq<Step>): (times: seq<nat>)
    ensures |times| == |UpdatesOf(steps)|
  {
    if steps == [] then []
    else
      var s := steps[|steps| - 1];
      TimesOf(steps[..|steps| - 1]) + if s.Update? then [s.at] else []
  }

  lemma {:induction false} EntryIsHistory(own: seq<Step>)
    requires forall s | s in own :: !s.Remove?
    ensures RunEntry(None, own) ==
            if UpdatesOf(own) == [] then None else Some(AfterHistory(UpdatesOf(own), TimesOf(own)))
  {
    if own != [] {
      var k := |own| - 1;
      var us, times := UpdatesOf(own[..k]), TimesOf(own[..k]);
      EntryIsHistory(own[..k]);
      assert own[k] in own;
      if own[k].Update? {
        assert UpdatesOf(own)[..|us|] == us && TimesOf(own)[..|us|] == times;
      } else {
        assert UpdatesOf(own) == us && TimesOf(own) == times;
      }
    }
  }

  /** However its updates interleave with those of other nodes, a node that was
      added and not removed carries the time of its latest phase change. */
  lemma TransitionTimeInList(list: seq<NodeStatus>, steps: seq<Step>, name: string, c: nat)
    requires UniqueNames(list) && name !in Names(list)
    requires Remove(name) !in steps && LatestPhaseChange(UpdatesOf(Own(steps, name)), c)
    ensures var e := Entry(RunList(list, steps), name);
            e.Some? && e.value.transitionTime == Some(TimesOf(Own(steps, name))[c])
  {
    hide RunList, RunEntry, Entry;
    var own := Own(steps, name);
    OwnIsPart(steps, name);
    hide Own;
    EntryNone(list, name);
    EntryAfterRun(list, steps, name);
    EntryIsHistory(own);
    TransitionTimeIsLatestChange(UpdatesOf(own), TimesOf(own), c);
  }

  lemma {:induction false} OwnIsPart(steps: seq<Step>, name: string)
    ensures forall s | s in Own(steps, name) :: s in steps && StepName(s) == name
  {
    if steps != [] {
      OwnIsPart(steps[..|steps| - 1], name);
    }
  }

  // ---- Timeouts ------------------------------------------------------------------

  const MINUTE: nat := 60_000_000_000

  function PhaseTimeout(phase: NodePhase): Option<nat> {
    match phase
    case CreatingServer => Some(10 * MINUTE)
    case WaitingForIP => Some(5 * MINUTE)
    case WaitingForTalosAPI => Some(10 * MINUTE)
    case ApplyingTalosConfig => Some(5 * MINUTE)
    case RebootingWithConfig => Some(10 * MINUTE)
    case WaitingForK8s => Some(10 * MINUTE)
    case NodeInitializing => Some(10 * MINUTE)
    case Draining => Some(15 * MINUTE)
    case RemovingFromEtcd => Some(5 * MINUTE)
    case DeletingServer => Some(5 * MINUTE)
    case _ => None
  }

  predicate Stuck(n: NodeStatus, now: nat) {
    && n.phase !in {Ready, Unhealthy, Failed}
    && n.transitionTime.Some?
    && PhaseTimeout(n.phase).Some?
    && now - n.transitionTime.value > PhaseTimeout(n.phase).value
  }

  /** A node is stuck after five minutes in a phase that only waits for a quick answer, after
      fifteen when it is drained, and after ten in any other phase before Ready. */
  lemma StuckIff(n: NodeStatus, now: nat)
    ensures Stuck(n, now) <==>
            n.transitionTime.Some? &&
            var age := now - n.transitionTime.value;
            || (n.phase in {WaitingForIP, ApplyingTalosConfig, RemovingFromEtcd, DeletingServer} && age > 5 * MINUTE)
            || (n.phase in {CreatingServer, WaitingForTalosAPI, RebootingWithConfig, WaitingForK8s, NodeInitializing}
                && age > 10 * MINUTE)
            || (n.phase == Draining && age > 15 * MINUTE)
  {
  }

  function StuckNames(list: seq<NodeStatus>, now: nat): seq<string> {
    if list == [] then []
    else
      var k := |list| - 1;
      StuckNames(list[..k], now) + if Stuck(list[k], now) then [list[k].name] else []
  }

  lemma {:induction false} StuckNamesAre(list: seq<NodeStatus>, now: nat)
    requires UniqueNames(list)
    ensures Distinct(StuckNames(list, now))
    ensures forall x | x in StuckNames(list, now) :: x in Names(list)
    ensures forall i | 0 <= i < |list| :: list[i].name in StuckNames(list, now) <==> Stuck(list[i], now)
  {
    if list != [] {
      var k := |list| - 1;
      var rest := list[..k];
      StuckNamesAre(rest, now);
      assert forall i | 0 <= i < k :: list[i] == rest[i];
      assert list[k].name !in Names(rest);
      hide Stuck;
      assert forall x | x in Names(rest) :: x in Names(list);
      assert list[k].name in Names(list);
    }
  }

  function StuckSteps(name: string, deleteOk: bool, at: nat): seq<Step> {
    [Update(PhaseUpdate(name, Failed), at), DeleteEffect(name, deleteOk), Remove(name)]
  }

  function CleanupScripts(names: seq<string>, deletes: string -> bool, at: nat): (r: seq<seq<Step>>)
    ensures |r| == |names|
  {
    seq(|names|, i requires 0 <= i < |names| => StuckSteps(names[i], deletes(names[i]), at))
  }

  function CleanupSteps(names: seq<string>, deletes: string -> bool, at: nat): seq<Step> {
    Sequential(CleanupScripts(names, deletes, at))
  }

  lemma OwnInCleanup(names: seq<string>, deletes: string -> bool, at: nat, name: string)
    requires Distinct(names)
    ensures Own(CleanupSteps(names, deletes, at), name) ==
            if name in names then StuckSteps(name, deletes(name), at) else []
  {
    hide Own, Sequential;
    var scripts := CleanupScripts(names, deletes, at);
    assert Owned(scripts, names);
    OwnInSequential(scripts, names, name);
  }

  lemma MemberIsEntry(list: seq<NodeStatus>, n: NodeStatus)
    requires UniqueNames(list)
    ensures n in list <==> Entry(list, n.name) == Some(n)
  {
    if n in list {
      var i :| 0 <= i < |list| && list[i] == n;
      FindUnique(list, i);
    }
  }

  // What is left are exactly the entries not over their timeout.
  ghost predicate StuckGone(before: seq<NodeStatus>, after: seq<NodeStatus>, now: nat) {
    UniqueNames(after) && forall n :: n in after <==> n in before && !Stuck(n, now)
  }

  /** After the check and the clean-up, the entries left are exactly those not
      over the timeout of their phase. */
  lemma CleanupIsExact(list: seq<NodeStatus>, now: nat, deletes: string -> bool, at: nat)
    requires UniqueNames(list)
    ensures StuckGone(list, RunList(list, CleanupSteps(StuckNames(list, now), deletes, at)), now)
  {
    hide RunList, CleanupSteps, StuckNames, Stuck, UniqueNames;
    forall n: NodeStatus
      ensures var after := RunList(list, CleanupSteps(StuckNames(list, now), deletes, at));
              UniqueNames(after) && (n in after <==> n in list && !Stuck(n, now))
    {
      CleanupOf(list, now, deletes, at, n);
    }
    assert UniqueNames(RunList(list, CleanupSteps(StuckNames(list, now), deletes, at))) by {
      CleanupOf(list, now, deletes, at, ZERO_NODE);
    }
  }

  lemma CleanupOf(list: seq<NodeStatus>, now: nat, deletes: string -> bool, at: nat, n: NodeStatus)
    requires UniqueNames(list)
    ensures var after := RunList(list, CleanupSteps(StuckNames(list, now), deletes, at));
            UniqueNames(after) && (n in after <==> n in list && !Stuck(n, now))
  {
    hide RunList, RunEntry, Own, CleanupSteps, StuckNames, Stuck, Entry, UniqueNames;
    var names := StuckNames(list, now);
    var steps := CleanupSteps(names, deletes, at);
    StuckNamesAre(list, now);
    OwnInCleanup(names, deletes, at, n.name);
    EntryAfterRun(list, steps, n.name);
    MemberIsEntry(list, n);
    MemberIsEntry(RunList(list, steps), n);
    var s := StuckSteps(n.name, deletes(n.name), at);
    EntryThree(Entry(list, n.name), s[0], s[1], s[2]);
    EntryUnchanged(Entry(list, n.name));
  }

  /** Each stuck node's server is deleted once, in list order, and no other. */
  lemma {:induction false} CleanupDeletes(names: seq<string>, deletes: string -> bool, at: nat)
    ensures Effects(CleanupSteps(names, deletes, at)) ==
            seq(|names|, i requires 0 <= i < |names| => DeleteEffect(names[i], deletes(names[i])).effect)
  {
    if names != [] {
      var k := |names| - 1;
      var s := StuckSteps(names[k], deletes(names[k]), at);
      hide Sequential;
      CleanupDeletes(names[..k], deletes, at);
      SplitCleanup(names, deletes, at);
      EffectsConcat(CleanupSteps(names[..k], deletes, at), s);
      hide Effects, CleanupSteps, StuckSteps;
      StuckEffects(names[k], deletes(names[k]), at);
    }
  }

  lemma StuckEffects(name: string, deleteOk: bool, at: nat)
    ensures Effects(StuckSteps(name, deleteOk, at)) == [DeleteEffect(name, deleteOk).effect]
  {
    var s := StuckSteps(name, deleteOk, at);
    assert Effects(s[..0]) == Effects(s[..1][..0]) == [];
    assert s[..2][..1] == s[..1] && Effects(s[..1]) == [] && Effects(s[..2]) == [s[1].effect];
  }

  lemma SplitCleanup(names: seq<string>, deletes: string -> bool, at: nat)
    requires names != []
    ensures var k := |names| - 1;
            CleanupSteps(names, deletes, at) ==
            CleanupSteps(names[..k], deletes, at) + StuckSteps(names[k], deletes(names[k]), at)
  {
    var k := |names| - 1;
    assert CleanupScripts(names, deletes, at)[..k] == CleanupScripts(names[..k], deletes, at);
  }

  // ---- The operator's methods ------------------------------------------------------

  method CheckStuckNodes(g: NodeGroup, now: nat) returns (stuck: seq<string>)
    requires g.Valid()
    ensures stuck == StuckNames(g.List(), now)
  {
    stuck := [];
    var nodes := g.backing[..g.length];
    for i := 0 to |nodes|
      invariant stuck == StuckNames(nodes[..i], now)
    {
      assert nodes[..i + 1][..i] == nodes[..i];
      var n := nodes[i];
      if n.phase == Ready || n.phase == Unhealthy || n.phase == Failed || n.transitionTime == None {
        continue;
      }
      var timeout := PhaseTimeout(n.phase);
      if timeout == None {
        continue;
      }
      if now - n.transitionTime.value > timeout.value {
        stuck := stuck + [n.name];
      }
    }
    assert nodes[..|nodes|] == nodes;
  }

  method HandleStuckNode(g: NodeGroup, name: string, deleteOk: bool, at: nat)
    requires g.Valid()
    modifies g, g.backing
    ensures g.Did(StuckSteps(name, deleteOk, at))
  {
    hide Run;
    g.UpdateNodePhase(PhaseUpdate(name, Failed), at);
    g.Emit(if deleteOk then ServerDeleted(name) else ServerDeleteFailed(name));
    g.RemoveNodeFromStatus(name);
  }

  method HandleStuckNodes(g: NodeGroup, names: seq<string>, deletes: string -> bool, at: nat)
    requires g.Valid()
    modifies g, g.backing
    ensures g.Did(CleanupSteps(names, deletes, at))
  {
    hide Run, CleanupSteps;
    assert CleanupSteps([], deletes, at) == [] by { NoCleanup(deletes, at); }
    for i := 0 to |names|
      invariant g.Did(CleanupSteps(names[..i], deletes, at))
    {
      assert names[..i + 1][..i] == names[..i];
      SplitCleanup(names[..i + 1], deletes, at);
      HandleStuckNode(g, names[i], deletes(names[i]), at);
    }
    assert names[..|names|] == names;
  }

  lemma NoCleanup(deletes: string -> bool, at: nat)
    ensures CleanupSteps([], deletes, at) == []
  {
  }

  /** Handles what the check found in one role's list. */
  method CleanUpRole(g: NodeGroup, stuck: seq<string>, deletes: string -> bool, now: nat, at: nat)
    requires g.Valid() && UniqueNames(g.List()) && stuck == StuckNames(g.List(), now)
    modifies g, g.backing
    ensures g.Valid() && (g.backing == old(g.backing) || fresh(g.backing)) && g.pins == old(g.pins)
    ensures StuckGone(old(g.List()), g.List(), now)
    ensures g.effects == old(g.effects) + Effects(CleanupSteps(StuckNames(old(g.List()), now), deletes, at))
  {
    hide Run, RunList, CleanupSteps, StuckNames, UniqueNames, StuckGone;
    ghost var trace, before := g.trace, g.View();
    assert Contents(before.mem) == g.List();
    HandleStuckNodes(g, stuck, deletes, at);
    DidMeans(g, trace, before, CleanupSteps(stuck, deletes, at));
    CleanupIsExact(old(g.List()), now, deletes, at);
  }

  /** The first step of a reconcile: check both roles, then handle what was found. */
  method CleanUpStuckNodes(cp: NodeGroup, workers: NodeGroup, deletes: string -> bool, now: nat, at: nat)
    requires cp.Valid() && workers.Valid() && cp != workers
    requires {cp.backing, cp.pins} !! {workers.backing, workers.pins}
    requires UniqueNames(cp.List()) && UniqueNames(workers.List())
    modifies cp, workers, cp.backing, workers.backing
    ensures cp.Valid() && workers.Valid()
    ensures StuckGone(old(cp.List()), cp.List(), now)
    ensures StuckGone(old(workers.List()), workers.List(), now)
    ensures cp.effects == old(cp.effects) + Effects(CleanupSteps(StuckNames(old(cp.List()), now), deletes, at))
    ensures workers.effects ==
            old(workers.effects) + Effects(CleanupSteps(StuckNames(old(workers.List()), now), deletes, at))
  {
    hide Run, RunList, CleanupSteps, StuckNames, UniqueNames, StuckGone;
    var stuckCP := CheckStuckNodes(cp, now);
    var stuckWorkers := CheckStuckNodes(workers, now);
    CleanUpRole(cp, stuckCP, deletes, now, at);
    CleanUpRole(workers, stuckWorkers, deletes, now, at);
  }
}
