/** The operator's methods of one pass over the workers, and what scaling down
    leaves in the list. */
module WorkerPass {
  import opened Nodes
  import opened Steps
  import opened NodeGroups
  import opened Provisioning
  import opened Interleaving
  import opened Health
  import opened Healing
  import opened WorkerScaleUp
  import opened WorkerScaleDown
  import opened WorkerReconcile

  datatype Requeue = NoRequeue | Fast | Default

  /** The entries whose name is not in the set, in order. */
  function Without(list: seq<NodeStatus>, names: set<string>): seq<NodeStatus> {
    if list == [] then []
    else
      var k := |list| - 1;
      Without(list[..k], names) + if list[k].name in names then [] else [list[k]]
  }

  lemma {:induction false} WithoutEntry(list: seq<NodeStatus>, names: set<string>, n: NodeStatus)
    ensures n in Without(list, names) <==> n in list && n.name !in names
  {
    if list != [] {
      var k := |list| - 1;
      WithoutEntry(list[..k], names, n);
      assert list == list[..k] + [list[k]];
    }
  }

  lemma {:induction false} WithoutNone(list: seq<NodeStatus>)
    ensures Without(list, {}) == list
  {
    if list != [] {
      WithoutNone(list[..|list| - 1]);
    }
  }

  /** Dropping listed names shrinks a uniquely named list by their number. */
  lemma {:induction false} WithoutCount(list: seq<NodeStatus>, names: set<string>)
    requires UniqueNames(list) && names <= Names(list)
    ensures |Without(list, names)| == |list| - |names|
  {
    if list == [] {
      assert names == {};
    } else {
      var k := |list| - 1;
      var x, rest := list[k].name, list[..k];
      assert list == rest + [list[k]];
      forall n | n in names - {x} ensures n in Names(rest) {
        var i :| 0 <= i < |list| && list[i].name == n;
        assert rest[i].name == n;
      }
      WithoutCount(rest, names - {x});
      WithoutOther(rest, names, x);
    }
  }

  lemma {:induction false} WithoutOther(list: seq<NodeStatus>, names: set<string>, x: string)
    requires forall n | n in list :: n.name != x
    ensures Without(list, names) == Without(list, names - {x})
  {
    if list != [] {
      var k := |list| - 1;
      assert list[k] in list && forall n | n in list[..k] :: n in list;
      WithoutOther(list[..k], names, x);
    }
  }

  // ---- Scaling down converges -----------------------------------------------------

  lemma SelectedAreDistinct(list: seq<NodeStatus>, count: int)
    requires UniqueNames(list)
    ensures var names := SelectedNames(list, count);
            && Distinct(names) && (forall n | n in names :: n in Names(list))
            && |names| == if count <= 0 then 0 else Min(count, |list|)
  {
    SelectionIsRight(list, count);
    SelectionSize(list, count);
    var sel, names := Selection(list, count), SelectedNames(list, count);
    hide Selection;
    forall a, b | 0 <= a < b < |names| ensures names[a] != names[b] {
      assert sel[a] != sel[b];
    }
    forall n | n in names ensures n in Names(list) {
      var a :| 0 <= a < |names| && names[a] == n;
      assert list[sel[a]].name == n;
    }
  }

  lemma SelectionSize(list: seq<NodeStatus>, count: int)
    ensures |Selection(list, count)| == if count <= 0 then 0 else Min(count, |list|)
  {
    SplitSize(list);
  }

  lemma {:induction false} SplitSize(list: seq<NodeStatus>)
    ensures |WithHealth(list, true)| + |WithHealth(list, false)| == |list|
  {
    if list != [] {
      SplitSize(list[..|list| - 1]);
    }
  }

  /** The list after the scaling half. */
  ghost function ScaledList(list: seq<NodeStatus>, desired: nat, cap: nat, ans: Answers): seq<NodeStatus>
    requires Consistent(ans)
  {
    if CountEarly(list) > 0 then list
    else if |list| < desired then RunList(list, ScaleSteps(list, desired, cap, ans))
    else
      var names := SelectedNames(list, |list| - desired);
      Without(list, Dropped(names, Removals(names, ans), cap))
  }

  function ScaleRequeue(list: seq<NodeStatus>, desired: nat): Requeue {
    if CountEarly(list) > 0 then Default
    else if |list| < desired then Fast
    else if |list| > desired then Default
    else NoRequeue
  }

  /** With deletions succeeding and nobody in early provisioning the scaling half drops
      min(cap, excess) workers, never goes below the desired count, and drops exactly the
      workers whose server is gone. */
  lemma ScaleDownConverges(list: seq<NodeStatus>, desired: nat, cap: nat, ans: Answers)
    requires UniqueNames(list) && desired <= |list| && Consistent(ans) && CountEarly(list) == 0
    requires forall name: string :: ans.removal(name).serverDeleteOk
    ensures |ScaledList(list, desired, cap, ans)| == |list| - Min(cap, |list| - desired) >= desired
    ensures var names := SelectedNames(list, |list| - desired);
            var ds := Removals(names, ans);
            forall n :: n in ScaledList(list, desired, cap, ans) <==> n in list && n.name !in Deleted(names, ds, cap)
  {
    var names := SelectedNames(list, |list| - desired);
    var ds := Removals(names, ans);
    SelectedAreDistinct(list, |list| - desired);
    hide SelectedNames, Names, CountEarly, Consistent, Deleted, Dropped, Distinct, UniqueNames;
    AllDropped(names, ds, cap);
    WithoutCount(list, Dropped(names, ds, cap));
    forall n ensures n in Without(list, Dropped(names, ds, cap)) <==> n in list && n.name !in Dropped(names, ds, cap) {
      WithoutEntry(list, Dropped(names, ds, cap), n);
    }
  }

  // The first of a well-chosen selection are well chosen themselves.
  lemma PrefixIsChosenWell(nodes: seq<NodeStatus>, selected: seq<nat>, k: nat)
    requires ChosenWell(nodes, selected) && k <= |selected|
    ensures ChosenWell(nodes, selected[..k])
  {
    assert forall c | 0 <= c < k :: selected[..k][c] == selected[c];
    forall i, j | i in selected[..k] && 0 <= j < |nodes| && j !in selected[..k]
      ensures nodes[i].healthy ==> nodes[j].healthy && j < i
      ensures !nodes[i].healthy && !nodes[j].healthy ==> i < j
    {
      var a :| 0 <= a < k && selected[a] == i;
      if j in selected {
        var b :| 0 <= b < |selected| && selected[b] == j;
        assert b >= k;
      }
    }
  }

  // Who is kept while another goes: an unhealthy worker never for a healthy one; of two
  // healthy ones the earlier, of two unhealthy ones the later.
  predicate KeptFor(list: seq<NodeStatus>, kept: nat, gone: nat)
    requires kept < |list| && gone < |list|
  {
    && (list[gone].healthy ==> list[kept].healthy && kept < gone)
    && (!list[gone].healthy && !list[kept].healthy ==> gone < kept)
  }

  /** With deletions succeeding the workers that leave the list are well chosen, even when
      the cap lets only some of the excess go. */
  lemma ScaleDownChoosesWell(list: seq<NodeStatus>, desired: nat, cap: nat, ans: Answers, kept: nat, gone: nat)
    requires UniqueNames(list) && desired <= |list| && Consistent(ans) && CountEarly(list) == 0
    requires forall name: string :: ans.removal(name).serverDeleteOk
    requires kept < |list| && gone < |list|
    requires list[kept] in ScaledList(list, desired, cap, ans) && list[gone] !in ScaledList(list, desired, cap, ans)
    ensures KeptFor(list, kept, gone)
  {
    var names := SelectedNames(list, |list| - desired);
    var ds := Removals(names, ans);
    hide CountEarly, Consistent, SelectedNames, Selection, Without, DownCount, UniqueNames, KeptFor, Removals;
    WhoIsDropped(list, Dropped(names, ds, cap), kept, gone);
    ChosenByName(list, |list| - desired, DownCount(names, ds, cap), kept, gone);
  }

  lemma ChosenByName(list: seq<NodeStatus>, count: int, k: nat, kept: nat, gone: nat)
    requires UniqueNames(list) && kept < |list| && gone < |list| && k <= |SelectedNames(list, count)|
    requires list[gone].name in SelectedNames(list, count)[..k] && list[kept].name !in SelectedNames(list, count)[..k]
    ensures KeptFor(list, kept, gone)
  {
    hide *;
    var sel, names := Selection(list, count), SelectedNames(list, count);
    SelectionIsRight(list, count);
    NamesOfSelection(list, count);
    PrefixIsChosenWell(list, sel, k);
    SelectedIndexes(list, sel, names, k, kept);
    SelectedIndexes(list, sel, names, k, gone);
    ChosenGoes(list, sel[..k], kept, gone);
  }

  lemma WhoIsDropped(list: seq<NodeStatus>, names: set<string>, kept: nat, gone: nat)
    requires kept < |list| && gone < |list|
    requires list[kept] in Without(list, names) && list[gone] !in Without(list, names)
    ensures list[kept].name !in names && list[gone].name in names
  {
    WithoutEntry(list, names, list[kept]);
    WithoutEntry(list, names, list[gone]);
  }

  lemma NamesOfSelection(list: seq<NodeStatus>, count: int)
    ensures var sel, names := Selection(list, count), SelectedNames(list, count);
            |names| == |sel| && forall a | 0 <= a < |sel| :: sel[a] < |list| && names[a] == list[sel[a]].name
  {
    SelectionIsRight(list, count);
    hide Selection;
  }

  lemma ChosenGoes(list: seq<NodeStatus>, chosen: seq<nat>, kept: nat, gone: nat)
    requires ChosenWell(list, chosen) && kept < |list| && gone in chosen && kept !in chosen && gone < |list|
    ensures KeptFor(list, kept, gone)
  {
  }

  // A worker is among the first k names selected exactly when its index is.
  lemma SelectedIndexes(list: seq<NodeStatus>, sel: seq<nat>, names: seq<string>, k: nat, i: nat)
    requires UniqueNames(list) && ChosenWell(list, sel) && k <= |sel| == |names| && i < |list|
    requires forall a | 0 <= a < |sel| :: sel[a] < |list| && names[a] == list[sel[a]].name
    ensures list[i].name in names[..k] <==> i in sel[..k]
  {
    if list[i].name in names[..k] {
      var a :| 0 <= a < k && names[a] == list[i].name;
      assert sel[a] == i && sel[..k][a] == i;
    }
    if i in sel[..k] {
      var a :| 0 <= a < k && sel[a] == i;
      assert names[..k][a] == list[i].name;
    }
  }

  // ---- The operator's methods ----------------------------------------------------

  method RemoveWorkersFromStatus(g: NodeGroup, removed: seq<string>)
    requires g.Valid()
    modifies g`backing, g`length, g`pins, g`start, g`trace
    ensures g.Valid() && (g.backing == old(g.backing) || fresh(g.backing))
    ensures g.pins == old(g.pins) || g.pins == g.backing
    ensures g.List() == Without(old(g.List()), set n | n in removed) && g.effects == old(g.effects)
  {
    var toRemove := set n | n in removed;
    if removed == [] {
      assert toRemove == {};
      WithoutNone(g.List());
      return;
    }
    var remaining, nodes := [], g.backing[..g.length];
    for i := 0 to |nodes|
      invariant remaining == Without(nodes[..i], toRemove)
    {
      assert nodes[..i + 1][..i] == nodes[..i];
      if nodes[i].name !in toRemove {
        remaining := remaining + [nodes[i]];
      }
    }
    assert nodes[..|nodes|] == nodes;
    g.Rebuild(remaining);
  }

  method DecommissionWorker(g: NodeGroup, name: string, d: Decommission) returns (ok: bool)
    requires g.Valid()
    modifies g`effects, g`trace
    ensures g.Did(DecommissionSteps(name, d))
    ensures ok == Decommissioned(name, d)
  {
    hide Run;
    g.Emit(Drained(name));
    if d.nodeFound {
      if d.nodeDeleteOk {
        g.Emit(NodeObjectDeleted(name));
      }
    }
    if name != "" {
      g.Emit(if d.serverDeleteOk then ServerDeleted(name) else ServerDeleteFailed(name));
      if !d.serverDeleteOk {
        return false;
      }
    }
    return true;
  }

  /** What the steps taken since an earlier state mean for the list and the log. */
  lemma DidMeans(g: NodeGroup, trace: seq<Step>, before: State, steps: seq<Step>)
    requires g.Valid() && g.trace == trace + steps && before == Run(g.start, trace)
    ensures g.List() == RunList(Contents(before.mem), steps)
    ensures g.effects == before.effects + Effects(steps)
  {
    assert g.List() == Contents(g.View().mem);
    hide Run, RunList, Effects;
    RunConcat(g.start, trace, steps);
    RunRefinesList(before, steps);
  }

  lemma DownUnfolds(names: seq<string>, ds: seq<Decommission>, cap: nat)
    requires |names| == |ds| > 0 && cap > 0
    ensures var ok := Decommissioned(names[0], ds[0]);
            var c := if ok then cap - 1 else cap;
            && DownSteps(names, ds, cap) == DecommissionSteps(names[0], ds[0]) + DownSteps(names[1..], ds[1..], c)
            && DownCount(names, ds, cap) == (if ok then 1 else 0) + DownCount(names[1..], ds[1..], c)
  {
  }

  lemma DownEnds(names: seq<string>, ds: seq<Decommission>, cap: nat)
    requires |names| == |ds| && (names == [] || cap == 0)
    ensures DownSteps(names, ds, cap) == [] && DownCount(names, ds, cap) == 0
  {
  }

  method DecommissionAll(g: NodeGroup, names: seq<string>, ds: seq<Decommission>, cap: nat) returns (removed: nat)
    requires g.Valid() && |names| == |ds|
    modifies g`effects, g`trace
    ensures g.Did(DownSteps(names, ds, cap)) && removed == DownCount(names, ds, cap)
  {
    hide Run, DownSteps, DownCount, DecommissionSteps, Decommissioned;
    removed := 0;
    var k := 0;
    ghost var done := [];
    assert names[0..] == names && ds[0..] == ds;
    while k < |names| && removed < cap
      invariant k <= |names| && removed <= cap && g.Did(done)
      invariant DownSteps(names, ds, cap) == done + DownSteps(names[k..], ds[k..], cap - removed)
      invariant DownCount(names, ds, cap) == removed + DownCount(names[k..], ds[k..], cap - removed)
    {
      DownUnfolds(names[k..], ds[k..], cap - removed);
      assert names[k..][1..] == names[k + 1..] && ds[k..][1..] == ds[k + 1..];
      var ok := DecommissionWorker(g, names[k], ds[k]);
      done := done + DecommissionSteps(names[k], ds[k]);
      if ok {
        removed := removed + 1;
      }
      k := k + 1;
    }
    DownEnds(names[k..], ds[k..], cap - removed);
  }

  method ScaleDownWorkers(g: NodeGroup, count: int, maxConcurrentHeals: nat, ans: Answers) returns (ok: bool)
    requires g.Valid()
    modifies g
    ensures g.Valid()
    ensures var names := SelectedNames(old(g.List()), count);
            var ds := Removals(names, ans);
            && g.effects == old(g.effects) + Effects(DownSteps(names, ds, maxConcurrentHeals))
            && g.List() == Without(old(g.List()), Dropped(names, ds, maxConcurrentHeals))
            && ok == (names == [] || DownCount(names, ds, maxConcurrentHeals) >= count)
  {
    hide Run, DownSteps, DownCount;
    ghost var trace, before := g.trace, g.View();
    var nodes := g.backing[..g.length];
    assert Contents(before.mem) == nodes;
    var selected := SelectWorkersForRemoval(nodes, count);
    var names := SelectedNames(nodes, count);
    var ds := Removals(names, ans);
    hide Selection;
    if selected == [] {
      NothingDown(names, ds, maxConcurrentHeals);
      WithoutNone(nodes);
      return true;
    }
    var removed := DecommissionAll(g, names, ds, maxConcurrentHeals);
    DidMeans(g, trace, before, DownSteps(names, ds, maxConcurrentHeals));
    RemoveWorkersFromStatus(g, names[..removed]);
    ok := removed >= count;
  }

  lemma NothingDown(names: seq<string>, ds: seq<Decommission>, cap: nat)
    requires names == [] && ds == []
    ensures Effects(DownSteps(names, ds, cap)) == [] && Dropped(names, ds, cap) == {}
  {
  }

  // Somebody listed is still being provisioned.
  ghost predicate SomeoneEarly(list: seq<NodeStatus>) {
    exists n | n in list :: EarlyPhase(n.phase)
  }

  /** A pass waits while anybody is being provisioned or what provisioning needs is missing,
      and asks to come back soon exactly when it goes about a shortage. */
  lemma WhenToScale(list: seq<NodeStatus>, desired: nat, cap: nat, ans: Answers)
    requires Consistent(ans)
    ensures SomeoneEarly(list) || (|list| < desired && !ans.prepared) ==>
              ScaledList(list, desired, cap, ans) == list && ScaleSteps(list, desired, cap, ans) == []
    ensures ScaleRequeue(list, desired) ==
            if SomeoneEarly(list) then Default
            else if |list| < desired then Fast
            else if |list| == desired then NoRequeue
            else Default
  {
    NoneEarly(list);
    hide CountEarly, ScaleUpSteps, Scheduled, Selection;
    if |list| < desired && !ans.prepared { NoSteps(list); }
  }

  lemma NoSteps(list: seq<NodeStatus>)
    ensures RunList(list, []) == list && Effects([]) == []
  {
  }

  lemma AtDesired(list: seq<NodeStatus>, cap: nat, ans: Answers)
    requires Consistent(ans)
    ensures ScaledList(list, |list|, cap, ans) == list
    ensures Effects(ScaleSteps(list, |list|, cap, ans)) == []
  {
    hide CountEarly;
    if CountEarly(list) == 0 {
      var names := SelectedNames(list, 0);
      var ds := Removals(names, ans);
      assert names == [] && ds == [];
      NothingDown(names, ds, cap);
      WithoutNone(list);
    }
  }

  method ScaleWorkers(g: NodeGroup, desired: nat, maxConcurrentHeals: nat, ans: Answers) returns (requeue: Requeue)
    requires g.Valid() && Consistent(ans)
    modifies g, g.backing
    ensures g.Valid()
    ensures g.List() == ScaledList(old(g.List()), desired, maxConcurrentHeals, ans)
    ensures g.effects == old(g.effects) + Effects(ScaleSteps(old(g.List()), desired, maxConcurrentHeals, ans))
    ensures requeue == ScaleRequeue(old(g.List()), desired)
  {
    hide Run, RunList, DownSteps, ScaleUpSteps, Scheduled, Selection, SelectedNames, Dropped, CountEarly, Removals;
    ghost var list, trace, before := g.List(), g.trace, g.View();
    assert Contents(before.mem) == list;
    var currentCount := g.length;
    var provisioning := CountWorkersInEarlyProvisioning(g.backing[..g.length]);
    if provisioning > 0 {
      return Default;
    }
    if currentCount < desired {
      var n := desired - currentCount;
      assert |ans.supply(n)| == n;
      var _ := ScaleUpWorkers(g, ans.prepared, ans.supply(n), ans.first(n), ans.second(n));
      DidMeans(g, trace, before, ScaleSteps(list, desired, maxConcurrentHeals, ans));
      return Fast;
    } else if currentCount > desired {
      var _ := ScaleDownWorkers(g, currentCount - desired, maxConcurrentHeals, ans);
      return Default;
    }
    AtDesired(list, maxConcurrentHeals, ans);
    return NoRequeue;
  }

  ghost function PassRequeue(i: PassInput, desired: nat, cap: nat): Requeue
    requires Answered(i)
  {
    var scaling := ScaleRequeue(ListAfterHealing(i, cap), desired);
    if scaling != NoRequeue then scaling else if Pointers(i) != [] then Default else NoRequeue
  }

  // Nobody is past the threshold and as many workers are registered as desired.
  ghost predicate NothingToDo(i: PassInput, desired: nat) {
    Pointers(i) == [] && |i.kube| == desired
  }

  /** A pass is the last one for now exactly when it found nothing to do, and then it did
      nothing; it comes back soon exactly when healing left too few. */
  lemma RequeuedUnlessIdle(i: PassInput, desired: nat, cap: nat)
    requires Answered(i)
    ensures PassRequeue(i, desired, cap) == NoRequeue && !SomeoneEarly(ListAfterHealing(i, cap)) ==>
              NothingToDo(i, desired)
    ensures NothingToDo(i, desired) ==>
              && PassRequeue(i, desired, cap) == NoRequeue && ListAfterHealing(i, cap) == ObservedAll(i.kube)
              && Effects(HealPart(i, cap)) == [] && Effects(ScalePart(i, desired, cap)) == []
    ensures PassRequeue(i, desired, cap) == Fast <==>
              !SomeoneEarly(ListAfterHealing(i, cap)) && |ListAfterHealing(i, cap)| < desired
  {
    var list := ListAfterHealing(i, cap);
    WhenToScale(list, desired, cap, i.ans);
    if Pointers(i) == [] {
      UnhealedList(i, cap);
      GuardNeverFiresAfterRebuild(i.kube);
      NoneEarly(list);
      if |i.kube| == desired { AtDesired(list, cap, i.ans); }
    }
    hide ListAfterHealing, HealPart, ScaleRequeue, ScaleSteps, SomeoneEarly, Pointers, Consistent;
  }

  lemma UnhealedList(i: PassInput, cap: nat)
    requires Answered(i) && Pointers(i) == []
    ensures ListAfterHealing(i, cap) == ObservedAll(i.kube) && Effects(HealPart(i, cap)) == []
  {
    hide PastThresholdPointers, Consistent;
    HealEnds(Rebuilt(i), Pointers(i), i.hs, cap);
  }

  /** Heal first, then scale what healing left. */
  method ReconcileWorkers(g: NodeGroup, desired: nat, maxConcurrentHeals: nat, i: PassInput) returns (requeue: Requeue)
    requires g.Valid() && Answered(i) && g.List() == ObservedAll(i.kube) && g.pins == g.backing
    requires g.View() == Rebuilt(i)
    modifies g, g.backing
    ensures g.Valid()
    ensures g.List() == ScaledList(ListAfterHealing(i, maxConcurrentHeals), desired, maxConcurrentHeals, i.ans)
    ensures g.effects == Effects(HealPart(i, maxConcurrentHeals)) + Effects(ScalePart(i, desired, maxConcurrentHeals))
    ensures requeue == PassRequeue(i, desired, maxConcurrentHeals)
  {
    hide Run, RunList, HealSteps, ScaleSteps, ScaledList, ScaleRequeue, PastThresholdPointers, Consistent;
    var ptrs := FindUnhealthyNodes(g, i.threshold, i.now);
    ghost var trace, before := g.trace, g.View();
    assert Contents(before.mem) == g.List();
    var replaced := ReplaceUnhealthyWorkers(g, ptrs, i.hs, maxConcurrentHeals);
    DidMeans(g, trace, before, HealPart(i, maxConcurrentHeals));
    RunRefinesList(Rebuilt(i), HealPart(i, maxConcurrentHeals));
    assert g.List() == ListAfterHealing(i, maxConcurrentHeals);
    requeue := ScaleWorkers(g, desired, maxConcurrentHeals, i.ans);
    if requeue != NoRequeue {
      return;
    }
    if replaced > 0 || |ptrs| > 0 {
      requeue := Default;
    }
  }

  /** One whole pass: rebuild the list from Kubernetes, heal, scale. Its log is
      the one the fleet theorems speak about. */
  method RunPass(desired: nat, maxConcurrentHeals: nat, i: PassInput, g: NodeGroup) returns (requeue: Requeue)
    requires g.Valid() && g.effects == [] && Answered(i)
    modifies g, g.backing
    ensures g.Valid()
    ensures g.List() == ScaledList(ListAfterHealing(i, maxConcurrentHeals), desired, maxConcurrentHeals, i.ans)
    ensures g.effects == Effects(HealPart(i, maxConcurrentHeals)) + Effects(ScalePart(i, desired, maxConcurrentHeals))
    ensures requeue == PassRequeue(i, desired, maxConcurrentHeals)
    ensures NothingToDo(i, desired) ==> requeue == NoRequeue && g.List() == ObservedAll(i.kube) && g.effects == []
  {
    RequeuedUnlessIdle(i, desired, maxConcurrentHeals);
    if NothingToDo(i, desired) { AtDesired(ObservedAll(i.kube), maxConcurrentHeals, i.ans); }
    hide Run, HealPart, ScalePart, ScaledList, PassRequeue, ListAfterHealing, NothingToDo;
    var _, _ := BuildNodeGroupStatus(g, i.kube);
    assert g.View() == Rebuilt(i);
    requeue := ReconcileWorkers(g, desired, maxConcurrentHeals, i);
  }
}
