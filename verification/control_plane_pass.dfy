/** One pass over the control planes: when it replaces a node and which, that the quorum
    stands, and what the node, the etcd cluster and the fleet look like afterwards. */
module ControlPlanePass {
  import opened Sequences
  import opened Nodes
  import opened Steps
  import opened Provisioning
  import opened Interleaving
  import opened AttemptResults
  import opened Fleet
  import opened Health
  import opened Healing
  import opened DrainedReplacements
  import opened HealingProgress
  import opened WorkerScaleUp
  import opened WorkerReconcile
  import opened WorkerPass
  import opened WorkerBounds
  import opened ControlPlaneHealing
  import opened SkippedRemovals
  import CP = ControlPlaneScaleUp

  // ---- When the member is removed ---------------------------------------------------------

  function Mark(victim: NodeStatus, h: CPHeal): Step {
    Update(PhaseUpdate(victim.name, RemovingFromEtcd), h.rest.at)
  }

  /** The member of this node that the operator removes, if any. */
  function Removed(list: seq<NodeStatus>, victim: NodeStatus, h: CPHeal): Option<string> {
    RemovedMember(ApplyList(list, Mark(victim, h)), victim.name, victim.privateIP, h)
  }

  // A node other than the victim that can be asked about the members.
  ghost predicate HasPeer(list: seq<NodeStatus>, victim: NodeStatus) {
    exists n | n in list :: n.name != victim.name && n.healthy && n.privateIP != ""
  }

  lemma {:induction false} HealthyIPIff(list: seq<NodeStatus>)
    ensures HealthyIP(list) != "" <==> exists n | n in list :: n.healthy && n.privateIP != ""
  {
    if list != [] {
      HealthyIPIff(list[1..]);
      assert list == [list[0]] + list[1..];
    }
  }

  lemma PeersAfterMark(list: seq<NodeStatus>, victim: NodeStatus, h: CPHeal)
    requires UniqueNames(list) && victim in list
    ensures HealthyIP(ApplyList(list, Mark(victim, h))) != "" <==> HasPeer(list, victim)
  {
    var after := ApplyList(list, Mark(victim, h));
    var k := Find(list, victim.name);
    var v :| 0 <= v < |list| && list[v] == victim;
    FindUnique(list, v);
    assert forall j | 0 <= j < |list| :: if j == k then !after[j].healthy else after[j] == list[j];
    HealthyIPIff(after);
    if n :| n in list && n.name != victim.name && n.healthy && n.privateIP != "" {
      var j :| 0 <= j < |list| && list[j] == n;
      assert after[j] == n && after[j] in after;
    }
  }

  /** The member goes exactly when Talos clients are there, the node has a private address,
      another healthy node can be asked, the list of members comes back with one that
      matches, and the removal succeeds; and then it is the first match. */
  lemma RemovedIff(list: seq<NodeStatus>, victim: NodeStatus, h: CPHeal)
    requires UniqueNames(list) && victim in list
    ensures Removed(list, victim, h).Some? <==>
            && h.hasClient && victim.privateIP != "" && HasPeer(list, victim) && h.removeOk
            && h.listing.Some? && exists m | m in h.listing.value :: IsMemberOf(m, victim.name, victim.privateIP)
    ensures Removed(list, victim, h).Some? ==>
              exists k | 0 <= k < |h.listing.value| ::
                && Removed(list, victim, h).value == h.listing.value[k].name
                && IsMemberOf(h.listing.value[k], victim.name, victim.privateIP)
                && forall j | 0 <= j < k :: !IsMemberOf(h.listing.value[j], victim.name, victim.privateIP)
  {
    PeersAfterMark(list, victim, h);
    hide HasPeer, ApplyList;
    if h.listing.Some? {
      var ms := h.listing.value;
      var k := FirstMember(ms, victim.name, victim.privateIP);
      hide IsMemberOf;
      if k < |ms| { assert ms[k] in ms; }
    }
  }

  /** The removal of the member is the first call of a replacement. */
  lemma MemberGoesFirst(list: seq<NodeStatus>, victim: NodeStatus, h: CPHeal)
    requires Removed(list, victim, h).Some?
    ensures var steps := ReplaceCPSteps(list, victim, h);
            && |steps| > 2 && steps[0].Update?
            && steps[1] == Do(EtcdMemberRemoved(victim.name, Removed(list, victim, h).value))
  {
    hide RemovedMember, ApplyList, ReprovisionSteps;
  }

  // ---- A replacement that succeeds -----------------------------------------------------------

  ghost predicate Completes(list: seq<NodeStatus>, victim: NodeStatus, h: CPHeal) {
    Removed(list, victim, h).Some? && Replaces(h.rest)
  }

  lemma RunFour(e: Etcd, a: seq<Step>, b: seq<Step>, c: seq<Step>, d: seq<Step>)
    ensures RunEtcd(e, a + (b + (c + d))) == RunEtcd(RunEtcd(RunEtcd(RunEtcd(e, a), b), c), d)
  {
    hide RunEtcd;
    RunEtcdConcat(e, a, b + (c + d));
    RunEtcdConcat(RunEtcd(e, a), b, c + d);
    RunEtcdConcat(RunEtcd(RunEtcd(e, a), b), c, d);
  }

  lemma SuccessStepsAre(name: string, h: Heal)
    requires Replaces(h)
    ensures var a := h.attempt;
            var before := [Remove(name)] + (ProvisionSteps(a) + [AddressStep(a), Phase(a, ApplyingTalosConfig)]);
            var waiting, last := [Phase(a, RebootingWithConfig), Phase(a, WaitingForK8s)], [Phase(a, NodeInitializing)];
            ReprovisionSteps(name, h) ==
            before + ([Do(ConfigApplied(a.name))] + (waiting + ([Do(NodeBecameReady(a.name))] + last)))
  {
    hide ProvisionSteps, AddressStep, Phase;
  }

  lemma UpdatesAreSilent(e: Etcd, steps: seq<Step>)
    requires forall s | s in steps :: s.Update?
    ensures RunEtcd(e, steps) == e
  {
    SilentSteps(e, steps);
  }

  lemma EtcdAfterSuccess(e: Etcd, name: string, h: Heal)
    requires Replaces(h)
    ensures var f := h.attempt.name;
            RunEtcd(e, ReprovisionSteps(name, h)) == Etcd(e.members + [Member(f, "")], e.live + {f})
  {
    var a := h.attempt;
    var apply, ready := Do(ConfigApplied(a.name)), Do(NodeBecameReady(a.name));
    var before := [Remove(name)] + (ProvisionSteps(a) + [AddressStep(a), Phase(a, ApplyingTalosConfig)]);
    var waiting, last := [Phase(a, RebootingWithConfig), Phase(a, WaitingForK8s)], [Phase(a, NodeInitializing)];
    SuccessStepsAre(name, h);
    BeforeJoiningIsSilent(e, name, a);
    EtcdOne(e, apply);
    var joined := EtcdStep(e, apply);
    UpdatesAreSilent(joined, waiting);
    EtcdOne(joined, ready);
    UpdatesAreSilent(EtcdStep(joined, ready), last);
    hide RunEtcd, ProvisionSteps, ReprovisionSteps, Replaces, AddressStep, Phase;
    RunEtcdConcat(e, before, [apply] + (waiting + ([ready] + last)));
    RunFour(e, [apply], waiting, [ready], last);
  }

  lemma MarkThenRemove(e: Etcd, list: seq<NodeStatus>, victim: NodeStatus, h: CPHeal)
    requires Removed(list, victim, h).Some?
    ensures var m := Removed(list, victim, h).value;
            RunEtcd(RunEtcd(e, [Mark(victim, h)]), [Do(EtcdMemberRemoved(victim.name, m))]) ==
            Etcd(DropMember(e.members, m), e.live)
  {
    hide Removed, RunEtcd, DropMember;
    EtcdOne(e, Mark(victim, h));
    EtcdOne(e, Do(EtcdMemberRemoved(victim.name, Removed(list, victim, h).value)));
  }

  lemma CompletedStepsAre(list: seq<NodeStatus>, victim: NodeStatus, h: CPHeal)
    requires Removed(list, victim, h).Some?
    ensures var removal := Do(EtcdMemberRemoved(victim.name, Removed(list, victim, h).value));
            ReplaceCPSteps(list, victim, h) ==
            [Mark(victim, h)] + ([removal] + (DeleteSteps(victim.name, h.rest) + ReprovisionSteps(victim.name, h.rest)))
  {
    hide RemovedMember, ApplyList, DeleteSteps, ReprovisionSteps;
  }

  /** With every call succeeding the fresh node takes the place of the old one among the
      etcd members and among the voters. */
  lemma MemberIsReplaced(e: Etcd, list: seq<NodeStatus>, victim: NodeStatus, h: CPHeal)
    requires Completes(list, victim, h) && victim.name != ""
    ensures var f := h.rest.attempt.name;
            RunEtcd(e, ReplaceCPSteps(list, victim, h)) ==
            Etcd(DropMember(e.members, Removed(list, victim, h).value) + [Member(f, "")], e.live - {victim.name} + {f})
  {
    var f, members := h.rest.attempt.name, DropMember(e.members, Removed(list, victim, h).value);
    var mark, removal := Mark(victim, h), Do(EtcdMemberRemoved(victim.name, Removed(list, victim, h).value));
    var delete, again := DeleteSteps(victim.name, h.rest), ReprovisionSteps(victim.name, h.rest);
    assert Replaces(h.rest) && !NodeObjectRefused(h.rest) && h.rest.serverDeleteOk;
    assert Survivors(e.live, victim.name) == e.live - {victim.name};
    hide *;
    CompletedStepsAre(list, victim, h);
    MarkThenRemove(e, list, victim, h);
    RunFour(e, [mark], [removal], delete, again);
    EtcdAfterDelete(Etcd(members, e.live), victim.name, h.rest);
    EtcdAfterSuccess(Etcd(members, e.live - {victim.name}), victim.name, h.rest);
  }

  lemma RemovalIsNamed(list: seq<NodeStatus>, victim: NodeStatus, h: CPHeal)
    ensures var v := victim.name;
            NamedBy(EtcdSteps(list, v, victim.privateIP, h) + (DeleteSteps(v, h.rest) + [Remove(v)]), v)
  {
    hide RemovedMember, ApplyList;
  }

  lemma OwnInReplaceCP(list: seq<NodeStatus>, victim: NodeStatus, h: CPHeal, n: string)
    requires Completes(list, victim, h) && h.rest.attempt.name != victim.name
    ensures Own(ReplaceCPSteps(list, victim, h), n) ==
            if n == victim.name then EtcdSteps(list, n, victim.privateIP, h) + (DeleteSteps(n, h.rest) + [Remove(n)])
            else if n == h.rest.attempt.name then AttemptSteps(ControlPlane, h.rest.attempt)
            else []
  {
    var v := victim.name;
    var etcd, delete, attempt := EtcdSteps(list, v, victim.privateIP, h), DeleteSteps(v, h.rest),
                                 AttemptSteps(ControlPlane, h.rest.attempt);
    AttemptIsNamed(ControlPlane, h.rest.attempt);
    RemovalIsNamed(list, victim, h);
    hide Own, Removed, EtcdSteps, DeleteSteps, AttemptSteps, NamedBy, Succeeds;
    assert ReplaceCPSteps(list, victim, h) == (etcd + (delete + [Remove(v)])) + attempt;
    hide ReplaceCPSteps, Completes;
    OwnOfNamed(etcd + (delete + [Remove(v)]), v, n);
    OwnOfNamed(attempt, h.rest.attempt.name, n);
    OwnConcat(etcd + (delete + [Remove(v)]), attempt, n);
  }

  lemma VictimPresence(list: seq<NodeStatus>, victim: NodeStatus, h: CPHeal, p: Presence)
    requires Completes(list, victim, h) && victim.name != ""
    ensures var v := victim.name;
            RunPresence(p, EtcdSteps(list, v, victim.privateIP, h) + (DeleteSteps(v, h.rest) + [Remove(v)])) ==
            Presence(false, false)
  {
    var v := victim.name;
    var s1, s2 := Mark(victim, h), Do(EtcdMemberRemoved(v, Removed(list, victim, h).value));
    var s3 := Update(PhaseUpdate(v, DeletingServer), h.rest.at);
    var d, s, r := Do(NodeObjectDeleted(v)), DeleteEffect(v, true), Remove(v);
    hide RemovedMember, ApplyList, RunPresence;
    PresenceThree(p, s1, s2, s3);
    PresenceThree(p, d, s, r);
    RunPresenceConcat(p, [s1, s2, s3], [d, s, r]);
    assert EtcdSteps(list, v, victim.privateIP, h) + (DeleteSteps(v, h.rest) + [Remove(v)]) == [s1, s2, s3] + [d, s, r];
  }

  /** And among the servers and the registered nodes. */
  lemma ServerIsReplaced(w: World, list: seq<NodeStatus>, victim: NodeStatus, h: CPHeal)
    requires Completes(list, victim, h) && victim.name != ""
    requires h.rest.attempt.name != victim.name && h.rest.attempt.name !in w.servers
    ensures ObserveAll(w, Effects(ReplaceCPSteps(list, victim, h))) == Swapped(w, victim.name, h.rest.attempt.name)
  {
    var steps, f := ReplaceCPSteps(list, victim, h), h.rest.attempt.name;
    hide Own, ObserveAll, RunPresence, ReplaceCPSteps, EtcdSteps, DeleteSteps, AttemptSteps, RemovedMember, ApplyList;
    var after, swapped := ObserveAll(w, Effects(steps)), Swapped(w, victim.name, f);
    forall n
      ensures n in after.servers <==> n in swapped.servers
      ensures n in after.registered <==> n in swapped.registered
    {
      WorldByName(w, steps, n);
      OwnInReplaceCP(list, victim, h, n);
      if n == victim.name {
        VictimPresence(list, victim, h, At(w, n));
      } else if n == f {
        AttemptPresence(At(w, n), ControlPlane, h.rest.attempt);
      } else {
        NothingHappened(w, n);
      }
    }
  }

  // ---- Which node is replaced, and when --------------------------------------------------------

  // The first node past the threshold.
  ghost predicate FirstSick(list: seq<NodeStatus>, threshold: int, now: nat, i: nat) {
    && i < |list| && PastThreshold(list[i], threshold, now)
    && forall j | 0 <= j < i :: !PastThreshold(list[j], threshold, now)
  }

  lemma FirstPointerIs(list: seq<NodeStatus>, threshold: int, now: nat, i: nat)
    requires FirstSick(list, threshold, now, i)
    ensures var ptrs := PastThresholdPointers(list, threshold, now); ptrs != [] && ptrs[0] == i
  {
    var ptrs := PastThresholdPointers(list, threshold, now);
    PointersAreExact(list, threshold, now);
    hide PastThreshold, PastThresholdPointers;
    assert i in ptrs;
    var k :| 0 <= k < |ptrs| && ptrs[k] == i;
    assert ptrs[0] in ptrs;
  }

  lemma {:induction false} NobodySick(list: seq<NodeStatus>, threshold: int, now: nat)
    requires forall n | n in list :: !PastThreshold(n, threshold, now)
    ensures PastThresholdPointers(list, threshold, now) == []
  {
    if list != [] {
      var k := |list| - 1;
      assert list[k] in list && forall n | n in list[..k] :: n in list;
      NobodySick(list[..k], threshold, now);
    }
  }

  /** A pass touches nothing while a node is being provisioned, without what provisioning
      needs, when it has only one node, without a ready majority of the desired number, and
      when no node is past the threshold. */
  lemma WhenToWait(list: seq<NodeStatus>, ready: nat, desired: nat, threshold: int, now: nat, ans: CP.CPAnswers)
    requires CP.CPConsistent(ans)
    requires || SomeoneEarly(list)
             || (if |list| < desired then !ans.prepared
                 else desired == 1 || 2 * ready <= desired || forall n | n in list :: !PastThreshold(n, threshold, now))
    ensures CP.CPSteps(list, ready, desired, threshold, now, ans) == []
  {
    NoneEarly(list);
    if forall n | n in list :: !PastThreshold(n, threshold, now) { NobodySick(list, threshold, now); }
    hide CountEarly, ReplaceCPSteps, CP.ScaleUpCPSteps, CP.Arrival, CP.CPConsistent, PastThresholdPointers;
    hide PastThreshold;
  }

  /** Otherwise a pass that finds its nodes complete replaces the first one past the threshold. */
  lemma WhenToReplace(list: seq<NodeStatus>, ready: nat, desired: nat, threshold: int, now: nat, ans: CP.CPAnswers,
                      i: nat)
    requires CP.CPConsistent(ans) && !SomeoneEarly(list) && |list| >= desired && desired != 1 && 2 * ready > desired
    requires FirstSick(list, threshold, now, i)
    ensures CP.CPSteps(list, ready, desired, threshold, now, ans) == ReplaceCPSteps(list, list[i], ans.heal)
  {
    NoneEarly(list);
    FirstPointerIs(list, threshold, now, i);
    hide CountEarly, ReplaceCPSteps, CP.ScaleUpCPSteps, CP.Arrival, CP.CPConsistent, PastThresholdPointers, FirstSick;
  }

  /** A pass that asks for no other and reports no error found as many nodes as desired and
      none to replace, and did nothing; one that fails started a replacement that failed. */
  lemma RequeuedUnlessIdle(list: seq<NodeStatus>, ready: nat, desired: nat, threshold: int, now: nat, ans: CP.CPAnswers)
    requires CP.CPConsistent(ans)
    ensures var requeue := CP.CPRequeue(list, ready, desired, threshold, now, ans);
            var ok := CP.CPSucceeds(list, ready, desired, threshold, now, ans);
            var steps := CP.CPSteps(list, ready, desired, threshold, now, ans);
            && (requeue == NoRequeue && ok ==> steps == [] && |list| >= desired && !SomeoneEarly(list))
            && (requeue == Fast <==> !SomeoneEarly(list) && |list| < desired)
            && (!ok ==> requeue == NoRequeue && steps != [] && !ReplaceSucceeds(ans.heal.rest))
  {
    NoneEarly(list);
    hide CountEarly, CP.ScaleUpCPSteps, CP.Arrival, CP.CPConsistent, PastThresholdPointers, EtcdSteps, ReplaceSucceeds;
    CPStepsNotEmpty(list, ans.heal);
  }

  lemma CPStepsNotEmpty(list: seq<NodeStatus>, h: CPHeal)
    ensures forall victim: NodeStatus :: ReplaceCPSteps(list, victim, h) != []
  {
    hide RemovedMember, ApplyList, DeleteSteps, ReprovisionSteps;
  }

  // ---- The quorum over a pass --------------------------------------------------------------------

  // Nobody who is ready answers to the name or address of a node that is not.
  ghost predicate Identified(e: Etcd, list: seq<NodeStatus>) {
    forall n, m | n in list && m in e.members && !n.healthy && IsMemberOf(m, n.name, n.privateIP) ::
      m.name !in ReadyNames(list)
  }

  // Ready nodes vote, the size is the desired one, and the answer about the members is true.
  ghost predicate Tells(e: Etcd, list: seq<NodeStatus>, desired: nat, h: CPHeal) {
    && UniqueNames(list) && |e.members| == desired && Quorate(e)
    && ReadyNames(list) <= LiveVoters(e) && Identified(e, list)
    && (h.listing.Some? ==> h.listing.value == e.members)
    && h.rest.attempt.name !in Names(list) + MemberNames(e.members) + e.live
  }

  ghost predicate QuorateThrough(e: Etcd, steps: seq<Step>, moment: nat) {
    moment <= |steps| ==> Quorate(RunEtcd(e, steps[..moment]))
  }

  lemma NothingKeepsQuorum(e: Etcd, moment: nat)
    requires Quorate(e)
    ensures QuorateThrough(e, [], moment)
  {
    var none: seq<Step> := [];
    assert moment == 0 ==> none[..moment] == none;
  }

  // A pass that scales nothing up replaces one unhealthy node at most, behind the gate.
  lemma NothingOrOne(list: seq<NodeStatus>, ready: nat, desired: nat, threshold: int, now: nat, ans: CP.CPAnswers)
    requires CP.CPConsistent(ans) && |list| >= desired
    ensures var steps := CP.CPSteps(list, ready, desired, threshold, now, ans);
            steps != [] ==>
              && Gate(ready, desired)
              && exists victim :: victim in list && !victim.healthy && steps == ReplaceCPSteps(list, victim, ans.heal)
  {
    PointersAreExact(list, threshold, now);
    var ptrs := PastThresholdPointers(list, threshold, now);
    hide CP.CPConsistent, CP.Arrival, CP.ScaleUpCPSteps, ReplaceCPSteps, PastThresholdPointers, CountEarly;
    if ptrs != [] { assert ptrs[0] in ptrs && list[ptrs[0]] in list; }
  }

  /** A pass that scales nothing up keeps etcd quorate at every moment, whatever fails, when
      the member of the node it replaces is removed or when the size is even: the operator's
      own check of the ready nodes is enough. */
  lemma {:induction false} PassKeepsQuorum(e: Etcd, list: seq<NodeStatus>, desired: nat, threshold: int, now: nat,
                                           ans: CP.CPAnswers, moment: nat)
    requires CP.CPConsistent(ans) && |list| >= desired && Tells(e, list, desired, ans.heal)
    requires desired % 2 == 0 || forall n | n in list && !n.healthy :: Removed(list, n, ans.heal).Some?
    ensures QuorateThrough(e, CP.CPSteps(list, CountReady(list), desired, threshold, now, ans), moment)
  {
    assert Quorate(e);
    var steps := CP.CPSteps(list, CountReady(list), desired, threshold, now, ans);
    NothingOrOne(list, CountReady(list), desired, threshold, now, ans);
    hide *;
    NothingKeepsQuorum(e, moment);
    if steps != [] {
      var victim :| victim in list && !victim.healthy && steps == ReplaceCPSteps(list, victim, ans.heal);
      OneReplacement(e, list, victim, ans.heal, desired, moment);
    }
  }

  lemma {:induction false} OneReplacement(e: Etcd, list: seq<NodeStatus>, victim: NodeStatus, h: CPHeal, desired: nat,
                                          moment: nat)
    requires Tells(e, list, desired, h) && Gate(CountReady(list), desired) && victim in list && !victim.healthy
    requires desired % 2 == 0 || Removed(list, victim, h).Some?
    ensures QuorateThrough(e, ReplaceCPSteps(list, victim, h), moment)
  {
    hide Quorate, LiveVoters, RunEtcd, ReplaceCPSteps, ApplyList, IsMemberOf, UniqueNames, Survivors;
    assert Replaceable(e, list, victim, desired);
    if moment <= |ReplaceCPSteps(list, victim, h)| {
      if Removed(list, victim, h).Some? {
        hide Replaceable;
        HealingKeepsQuorum(e, list, victim, h, desired, moment);
      } else {
        ReadySurvive(e, list, victim, desired);
        hide Replaceable;
        SurvivorsStay(e, list, victim, h, moment);
      }
    }
  }

  // ---- A shortage is filled ---------------------------------------------------------------------

  lemma ScaleUpFills(w: World, attempts: seq<Attempt>, s1: seq<nat>, arrived: seq<Attempt>)
    requires CP.Arrival(attempts, s1, arrived) && AllClean(arrived) && w.servers <= w.registered
    requires forall a | a in arrived :: Succeeds(a)
    requires forall m | m in AttemptNames(arrived) :: m !in w.registered
    ensures Grew(w, ObserveAll(w, Effects(CP.ScaleUpCPSteps(attempts, s1, arrived))), |attempts|)
  {
    hide ObserveAll, CP.ScaleUpCPSteps, CP.Arrival, AllClean, Succeeds, AttemptNames;
    var after := ObserveAll(w, Effects(CP.ScaleUpCPSteps(attempts, s1, arrived)));
    var names := set m | m in AttemptNames(arrived);
    forall m
      ensures m in after.registered <==> m in w.registered + names
      ensures m in after.servers <==> m in w.servers + names
    {
      CP.WorldAfterCPScaleUp(w, attempts, s1, arrived, m);
      if m in AttemptNames(arrived) { ArrivalStands(arrived, m); }
      assert m !in AttemptNames(arrived) ==> At(after, m) == At(w, m);
    }
    CP.CountArrived(attempts, s1, arrived);
    hide CP.Reached, CP.Stands;
    assert after.registered == w.registered + names && after.servers == w.servers + names && names !! w.registered;
  }

  lemma ArrivalStands(arrived: seq<Attempt>, m: string)
    requires m in AttemptNames(arrived) && AllClean(arrived) && forall a | a in arrived :: Succeeds(a)
    ensures exists i | 0 <= i < |arrived| :: arrived[i].name == m && CP.Stands(arrived, i) && CP.Reached(arrived, i)
                                             && Succeeds(arrived[i])
  {
    var i :| 0 <= i < |arrived| && AttemptNames(arrived)[i] == m;
    assert forall j | 0 <= j < |arrived| :: arrived[j] in arrived;
    assert CP.Reached(arrived, i) && CP.Stands(arrived, i);
  }

  /** With fewer control planes listed than desired and every call succeeding, a pass adds
      exactly the missing number of servers, each registered. */
  lemma {:induction false} PassFills(w: World, list: seq<NodeStatus>, ready: nat, desired: nat, threshold: int,
                                     now: nat, ans: CP.CPAnswers)
    requires CP.CPConsistent(ans) && ans.prepared && CountEarly(list) == 0 && |list| < desired
    requires w.servers <= w.registered
    requires var arrived := ans.arrival(desired - |list|);
             && AllClean(arrived) && (forall a | a in arrived :: Succeeds(a))
             && forall m | m in AttemptNames(arrived) :: m !in w.registered
    ensures Grew(w, ObserveAll(w, Effects(CP.CPSteps(list, ready, desired, threshold, now, ans))), desired - |list|)
  {
    var n := desired - |list|;
    assert |ans.supply(n)| == n;
    hide ObserveAll, CP.ScaleUpCPSteps, CP.Arrival, CountEarly, AllClean, Succeeds, MaybeReplaceSteps, Grew;
    hide AttemptNames;
    ScaleUpFills(w, ans.supply(n), ans.first(n), ans.arrival(n));
  }
}
