/** Replacing unhealthy workers through pointers into the list being edited. */
module Healing {
  import opened Nodes
  import opened Steps
  import opened NodeGroups
  import opened Provisioning
  import opened Interleaving

  // The answers one replacement meets. nodeFound: the Kubernetes node object
  // could be read; prepared: the provisioning prerequisites were gathered.
  datatype Heal = Heal(
    nodeFound: bool,
    nodeDeleteOk: bool,
    serverDeleteOk: bool,
    prepared: bool,
    attempt: Attempt,
    at: nat)

  predicate PastThreshold(n: NodeStatus, threshold: int, now: nat) {
    !n.healthy && n.unhealthySince.Some? && now - n.unhealthySince.value > threshold
  }

  predicate NodeObjectRefused(h: Heal) {
    h.nodeFound && !h.nodeDeleteOk
  }

  /** Drain, then delete the node object and the server. */
  function DrainSteps(name: string, h: Heal): seq<Step> {
    [Update(PhaseUpdate(name, Draining), h.at), Do(Drained(name))] + DeleteSteps(name, h)
  }

  function DeleteSteps(name: string, h: Heal): seq<Step> {
    [Update(PhaseUpdate(name, DeletingServer), h.at)] +
    if NodeObjectRefused(h) then []
    else
      (if h.nodeFound then [Do(NodeObjectDeleted(name))] else []) +
      if name != "" then [DeleteEffect(name, h.serverDeleteOk)] else []
  }

  function ReplaceSteps(name: string, h: Heal): seq<Step> {
    if NodeObjectRefused(h) then DrainSteps(name, h)
    else if !h.prepared then RemovalSteps(name, h)
    else RemovalSteps(name, h) + AttemptSteps(Worker, h.attempt)
  }

  function RemovalSteps(name: string, h: Heal): seq<Step> {
    DrainSteps(name, h) + [Remove(name)]
  }

  predicate ReplaceSucceeds(h: Heal) {
    !NodeObjectRefused(h) && h.prepared && Succeeds(h.attempt)
  }

  /** The healing loop. Pointers are indices into the pinned array; the name is
      whatever the pointed slot holds when its turn comes. */
  function HealSteps(st: State, ptrs: seq<nat>, hs: seq<Heal>, budget: nat): seq<Step>
    requires Ok(st.mem) && |ptrs| == |hs|
    requires forall i | 0 <= i < |ptrs| :: ptrs[i] < |st.mem.pinned|
    decreases |ptrs|
  {
    if ptrs == [] || budget == 0 then []
    else
      var steps := ReplaceSteps(st.mem.pinned[ptrs[0]].name, hs[0]);
      PinnedKeepsLength(st, steps);
      steps + HealSteps(Run(st, steps), ptrs[1..], hs[1..], if ReplaceSucceeds(hs[0]) then budget - 1 else budget)
  }

  lemma {:induction false} PinnedKeepsLength(st: State, steps: seq<Step>)
    requires Ok(st.mem)
    ensures |Run(st, steps).mem.pinned| == |st.mem.pinned|
  {
    if steps != [] {
      PinnedKeepsLength(st, steps[..|steps| - 1]);
    }
  }

  // ---- What a step does to the slots that pointers still refer to ----------

  // From slot `from` on, a slot keeps its name or takes one of `names`.
  ghost predicate Mild(before: seq<NodeStatus>, after: seq<NodeStatus>, from: nat, names: set<string>) {
    |before| == |after| && forall j | from <= j < |before| :: after[j].name == before[j].name || after[j].name in names
  }

  ghost predicate OnlyUpdates(steps: seq<Step>, name: string) {
    forall s | s in steps :: !s.Remove? && (s.Update? ==> s.update.name == name)
  }

  lemma {:induction false} UpdatesAreMild(st: State, steps: seq<Step>, name: string)
    requires Ok(st.mem) && OnlyUpdates(steps, name)
    ensures Mild(st.mem.pinned, Run(st, steps).mem.pinned, 0, {name})
  {
    if steps != [] {
      UpdatesAreMild(st, steps[..|steps| - 1], name);
      assert steps[|steps| - 1] in steps;
    }
  }

  /** Removing the node a pointer names writes no slot beyond that pointer. */
  lemma RemoveIsMild(st: State, p: nat)
    requires Ok(st.mem) && p < |st.mem.pinned|
    ensures Mild(st.mem.pinned, Apply(st, Remove(st.mem.pinned[p].name)).mem.pinned, p + 1, {})
  {
    var m := st.mem;
    var i := Find(Contents(m), m.pinned[p].name);
    if m.aliased && p < m.len {
      assert Contents(m)[p].name == m.pinned[p].name;
      assert i <= p;
    }
  }

  // The fresh node sits in the last slot of the list, or is not in it.
  ghost predicate AtEnd(m: Mem, name: string)
    requires Ok(m)
  {
    Find(Contents(m), name) == m.len || Find(Contents(m), name) + 1 == m.len
  }

  lemma AtEndStep(st: State, s: Step, name: string)
    requires Ok(st.mem) && AtEnd(st.mem, name) && StepName(s) == name
    ensures AtEnd(Apply(st, s).mem, name)
    ensures Mild(st.mem.pinned, Apply(st, s).mem.pinned, 0, {name})
  {
    var m, r := st.mem, Apply(st, s).mem;
    ApplyRefinesList(st, s);
    var i := Find(Contents(m), name);
    match s
    case Update(u, at) =>
      FindIs(Contents(r), name, i);
    case Remove(_) =>
      if i + 1 == m.len { FindIs(Contents(r), name, r.len); }
    case Do(_) =>
  }

  lemma {:induction false} AtEndRun(st: State, steps: seq<Step>, name: string)
    requires Ok(st.mem) && AtEnd(st.mem, name) && NamedBy(steps, name)
    ensures AtEnd(Run(st, steps).mem, name)
    ensures Mild(st.mem.pinned, Run(st, steps).mem.pinned, 0, {name})
  {
    if steps != [] {
      var k := |steps| - 1;
      AtEndRun(st, steps[..k], name);
      assert steps[k] in steps;
      AtEndStep(Run(st, steps[..k]), steps[k], name);
    }
  }

  lemma DrainOnlyUpdates(name: string, h: Heal)
    ensures OnlyUpdates(DrainSteps(name, h), name)
  {
  }

  lemma DrainIsMild(st: State, p: nat, h: Heal)
    requires Ok(st.mem) && p < |st.mem.pinned|
    ensures var x := st.mem.pinned[p].name;
            && Mild(st.mem.pinned, Run(st, DrainSteps(x, h)).mem.pinned, p, {x})
            && Mild(st.mem.pinned, Run(st, RemovalSteps(x, h)).mem.pinned, p + 1, {x})
  {
    hide Run;
    var x := st.mem.pinned[p].name;
    var drain := DrainSteps(x, h);
    DrainOnlyUpdates(x, h);
    hide DrainSteps;
    hide OnlyUpdates;
    UpdatesAreMild(st, drain, x);
    RunConcat(st, drain, [Remove(x)]);
    RunOne(Run(st, drain), Remove(x));
    RemoveIsMild(Run(st, drain), p);
  }

  /** One replacement leaves the later pointers on the nodes they were on, or
      on the node that was just created. */
  lemma ReplaceIsMild(st: State, p: nat, h: Heal)
    requires Ok(st.mem) && p < |st.mem.pinned|
    requires h.attempt.name !in Names(Contents(st.mem)) && h.attempt.name != st.mem.pinned[p].name
    ensures var x := st.mem.pinned[p].name;
            Mild(st.mem.pinned, Run(st, ReplaceSteps(x, h)).mem.pinned, p + 1, {x, h.attempt.name})
  {
    hide Run, Contents, DrainSteps, AttemptSteps, Mild, Names, Find, NamedBy, AtEnd;
    var x, f := st.mem.pinned[p].name, h.attempt.name;
    var drain, cut := DrainSteps(x, h), RemovalSteps(x, h);
    DrainIsMild(st, p, h);
    if NodeObjectRefused(h) {
      assert ReplaceSteps(x, h) == drain;
      MildWeaken(st.mem.pinned, Run(st, drain).mem.pinned, p, p + 1, {x}, {x, f});
    } else if !h.prepared {
      assert ReplaceSteps(x, h) == cut;
      MildWeaken(st.mem.pinned, Run(st, cut).mem.pinned, p + 1, p + 1, {x}, {x, f});
    } else {
      DrainIsNamed(x, h);
      AbsentStays(st, cut, x, f);
      AttemptIsNamed(Worker, h.attempt);
      AtEndRun(Run(st, cut), AttemptSteps(Worker, h.attempt), f);
      RunConcat(st, cut, AttemptSteps(Worker, h.attempt));
      MildThen(st.mem.pinned, Run(st, cut).mem.pinned, Run(st, ReplaceSteps(x, h)).mem.pinned, p + 1, {x}, {f});
      assert {x} + {f} == {x, f};
    }
  }

  lemma MildWeaken(a: seq<NodeStatus>, b: seq<NodeStatus>, from: nat, to: nat, names: set<string>, more: set<string>)
    requires Mild(a, b, from, names) && from <= to && names <= more
    ensures Mild(a, b, to, more)
  {
  }

  lemma MildThen(a: seq<NodeStatus>, b: seq<NodeStatus>, c: seq<NodeStatus>, from: nat,
                 first: set<string>, second: set<string>)
    requires Mild(a, b, from, first) && Mild(b, c, 0, second)
    ensures Mild(a, c, from, first + second)
  {
  }

  lemma DrainIsNamed(name: string, h: Heal)
    ensures NamedBy(DrainSteps(name, h), name)
    ensures NamedBy(RemovalSteps(name, h), name)
  {
  }

  lemma NamesAfterStep(s: seq<NodeStatus>, step: Step)
    ensures Names(ApplyList(s, step)) <= Names(s) + {StepName(step)}
  {
    var t := ApplyList(s, step);
    if step.Remove? { SwapRemoveShape(s, step.node); }
    assert forall j | 0 <= j < |s| :: s[j].name in Names(s);
    assert forall j | 0 <= j < |t| :: t[j].name in Names(s) + {StepName(step)};
  }

  lemma {:induction false} NamesAfterRun(s: seq<NodeStatus>, steps: seq<Step>)
    ensures Names(RunList(s, steps)) <= Names(s) + set t | t in steps :: StepName(t)
  {
    hide Names, ApplyList;
    if steps != [] {
      var k := |steps| - 1;
      NamesAfterRun(s, steps[..k]);
      NamesAfterStep(RunList(s, steps[..k]), steps[k]);
      assert steps[k] in steps;
      assert forall t | t in steps[..k] :: t in steps;
    }
  }

  lemma AbsentStays(st: State, steps: seq<Step>, owner: string, name: string)
    requires Ok(st.mem) && NamedBy(steps, owner) && owner != name && name !in Names(Contents(st.mem))
    ensures AtEnd(Run(st, steps).mem, name) && name !in Names(Contents(Run(st, steps).mem))
  {
    RunRefinesList(st, steps);
    NamesAfterRun(Contents(st.mem), steps);
    EntryNone(Contents(Run(st, steps).mem), name);
  }

  // ---- Safety of the whole loop --------------------------------------------

  ghost predicate Increasing(ptrs: seq<nat>) {
    forall i, j | 0 <= i < j < |ptrs| :: ptrs[i] < ptrs[j]
  }

  ghost function CreatedNames(hs: seq<Heal>): set<string> {
    set h | h in hs :: h.attempt.name
  }

  /** Generated names are pairwise distinct and new. */
  ghost predicate FreshNames(hs: seq<Heal>, used: set<string>) {
    && (forall i | 0 <= i < |hs| :: hs[i].attempt.name !in used)
    && (forall i, j | 0 <= i < j < |hs| :: hs[i].attempt.name != hs[j].attempt.name)
  }

  ghost predicate PointAt(m: Mem, ptrs: seq<nat>, names: set<string>) {
    Increasing(ptrs) && forall i | 0 <= i < |ptrs| :: ptrs[i] < |m.pinned| && m.pinned[ptrs[i]].name in names
  }

  lemma PointersAfterReplace(st: State, ptrs: seq<nat>, hs: seq<Heal>, doomed: set<string>)
    requires Ok(st.mem) && |ptrs| == |hs| > 0
    requires PointAt(st.mem, ptrs, doomed) && FreshNames(hs, doomed + Names(Contents(st.mem)))
    ensures var x, f := st.mem.pinned[ptrs[0]].name, hs[0].attempt.name;
            var after := Run(st, ReplaceSteps(x, hs[0]));
            && PointAt(after.mem, ptrs[1..], doomed + {f})
            && FreshNames(hs[1..], doomed + {f} + Names(Contents(after.mem)))
  {
    hide Run, Contents, ReplaceSteps, Names;
    var x, f := st.mem.pinned[ptrs[0]].name, hs[0].attempt.name;
    var steps := ReplaceSteps(x, hs[0]);
    ReplaceIsMild(st, ptrs[0], hs[0]);
    ReplaceConcerns(x, hs[0]);
    RunRefinesList(st, steps);
    NamesAfterRun(Contents(st.mem), steps);
    forall i | 0 <= i < |ptrs| - 1
      ensures ptrs[1..][i] < |st.mem.pinned| && Run(st, steps).mem.pinned[ptrs[1..][i]].name in doomed + {f}
    {
      assert ptrs[0] < ptrs[i + 1];
    }
  }

  lemma ReplaceConcerns(name: string, h: Heal)
    ensures forall s | s in ReplaceSteps(name, h) :: StepName(s) == name || StepName(s) == h.attempt.name
  {
    DrainIsNamed(name, h);
    AttemptIsNamed(Worker, h.attempt);
    hide DrainSteps, AttemptSteps;
  }

  /** Healing never harms a bystander: every list edit, drain and deletion of the
      loop concerns a worker that was doomed at entry or was created by the loop. */
  lemma {:induction false} HealingSparesBystanders(st: State, ptrs: seq<nat>, hs: seq<Heal>, budget: nat,
                                                   doomed: set<string>)
    requires Ok(st.mem) && |ptrs| == |hs|
    requires PointAt(st.mem, ptrs, doomed) && FreshNames(hs, doomed + Names(Contents(st.mem)))
    ensures forall s | s in HealSteps(st, ptrs, hs, budget) :: StepName(s) in doomed + CreatedNames(hs)
    decreases |ptrs|
  {
    hide Run, Contents, ReplaceSteps, Names, Mild;
    if ptrs != [] && budget > 0 {
      var x, f := st.mem.pinned[ptrs[0]].name, hs[0].attempt.name;
      var steps := ReplaceSteps(x, hs[0]);
      PinnedKeepsLength(st, steps);
      PointersAfterReplace(st, ptrs, hs, doomed);
      ReplaceConcerns(x, hs[0]);
      HealingSparesBystanders(Run(st, steps), ptrs[1..], hs[1..],
                              if ReplaceSucceeds(hs[0]) then budget - 1 else budget, doomed + {f});
      assert hs[0] in hs && forall h | h in hs[1..] :: h in hs;
    }
  }

  /** So a bystander keeps its entry unchanged. */
  lemma BystanderKeepsEntry(st: State, ptrs: seq<nat>, hs: seq<Heal>, budget: nat, doomed: set<string>, name: string)
    requires Ok(st.mem) && |ptrs| == |hs| && UniqueNames(Contents(st.mem))
    requires PointAt(st.mem, ptrs, doomed) && FreshNames(hs, doomed + Names(Contents(st.mem)))
    requires name !in doomed + CreatedNames(hs)
    ensures Entry(Contents(Run(st, HealSteps(st, ptrs, hs, budget)).mem), name) == Entry(Contents(st.mem), name)
  {
    hide Run, Contents, Names, HealSteps;
    var steps := HealSteps(st, ptrs, hs, budget);
    HealingSparesBystanders(st, ptrs, hs, budget, doomed);
    RunRefinesList(st, steps);
    EntryAfterRun(Contents(st.mem), steps, name);
    OwnNone(steps, name);
  }

  // ---- What the shared backing array does to the last pointer ---------------

  ghost predicate SameShape(a: Mem, b: Mem) {
    && a.aliased && b.aliased && a.len == b.len && |a.slots| == |b.slots|
    && forall j | 0 <= j < |a.slots| :: b.slots[j].name == a.slots[j].name
  }

  lemma UpdateStaysInPlace(st: State, s: Step, name: string)
    requires Ok(st.mem) && st.mem.aliased && Find(Contents(st.mem), name) < st.mem.len
    requires !s.Remove? && (s.Update? ==> s.update.name == name)
    ensures SameShape(st.mem, Apply(st, s).mem)
    ensures Find(Contents(Apply(st, s).mem), name) == Find(Contents(st.mem), name)
  {
    FindIs(Contents(Apply(st, s).mem), name, Find(Contents(st.mem), name));
  }

  lemma {:induction false} UpdatesStayInPlace(st: State, steps: seq<Step>, name: string)
    requires Ok(st.mem) && st.mem.aliased && OnlyUpdates(steps, name)
    requires Find(Contents(st.mem), name) < st.mem.len
    ensures SameShape(st.mem, Run(st, steps).mem)
    ensures Find(Contents(Run(st, steps).mem), name) == Find(Contents(st.mem), name)
  {
    hide Contents, Apply;
    if steps != [] {
      var k := |steps| - 1;
      UpdatesStayInPlace(st, steps[..k], name);
      assert steps[k] in steps;
      UpdateStaysInPlace(Run(st, steps[..k]), steps[k], name);
    }
  }

  lemma LengthAfterRemove(st: State, p: nat, h: Heal)
    requires Ok(st.mem) && st.mem.aliased && UniqueNames(Contents(st.mem)) && p < st.mem.len
    ensures var x := st.mem.pinned[p].name;
            var m := Run(st, RemovalSteps(x, h)).mem;
            m.aliased && m.len == st.mem.len - 1 && |m.slots| == |st.mem.slots|
  {
    hide Run;
    var x := st.mem.pinned[p].name;
    var drain := DrainSteps(x, h);
    FindUnique(Contents(st.mem), p);
    DrainOnlyUpdates(x, h);
    hide DrainSteps, OnlyUpdates;
    UpdatesStayInPlace(st, drain, x);
    RunConcat(st, drain, [Remove(x)]);
    RunOne(Run(st, drain), Remove(x));
  }

  /** Replacing an earlier worker moves the last one into its slot, and the
      append that follows puts the new node where the last pointer points. */
  lemma LastPointerMeetsReplacement(st: State, p: nat, h: Heal)
    requires Ok(st.mem) && st.mem.aliased && UniqueNames(Contents(st.mem)) && p + 1 < st.mem.len
    requires h.attempt.name !in Names(Contents(st.mem))
    requires !NodeObjectRefused(h) && h.prepared
    ensures PinnedName(Run(st, ReplaceSteps(st.mem.pinned[p].name, h)), st.mem.len - 1, h.attempt.name)
  {
    hide Run, Names, Contents, UniqueNames, Find, RemovalSteps, AttemptSteps, PinnedName, Succeeds;
    var x, a := st.mem.pinned[p].name, h.attempt;
    PointedIsListed(st.mem, p);
    LengthAfterRemove(st, p, h);
    AbsentAfterDrain(st, x, h);
    PinnedAfter(st, RemovalSteps(x, h), a);
  }

  lemma PointedIsListed(m: Mem, p: nat)
    requires Ok(m) && m.aliased && p < m.len
    ensures m.pinned[p].name in Names(Contents(m))
  {
    assert Contents(m)[p].name == m.pinned[p].name;
  }

  lemma PinnedAfter(st: State, cut: seq<Step>, a: Attempt)
    requires Ok(st.mem) && Run(st, cut).mem.aliased && Run(st, cut).mem.len < |Run(st, cut).mem.slots|
    requires a.name !in Names(Contents(Run(st, cut).mem))
    ensures PinnedName(Run(st, cut + AttemptSteps(Worker, a)), Run(st, cut).mem.len, a.name)
  {
    hide *;
    PushedAtEnd(Run(st, cut), a);
    RunConcat(st, cut, AttemptSteps(Worker, a));
  }

  /** The pointed slot holds the entry of this name. */
  ghost predicate PinnedName(st: State, i: nat, name: string) {
    i < |st.mem.pinned| && st.mem.pinned[i].name == name
  }

  lemma AbsentAfterDrain(st: State, name: string, h: Heal)
    requires Ok(st.mem) && h.attempt.name !in Names(Contents(st.mem)) && h.attempt.name != name
    ensures h.attempt.name !in Names(Contents(Run(st, RemovalSteps(name, h)).mem))
  {
    DrainIsNamed(name, h);
    hide DrainSteps;
    AbsentStays(st, RemovalSteps(name, h), name, h.attempt.name);
  }

  lemma PushedAtEnd(st: State, a: Attempt)
    requires Ok(st.mem) && st.mem.aliased && st.mem.len < |st.mem.slots|
    requires a.name !in Names(Contents(st.mem))
    ensures PinnedName(Run(st, AttemptSteps(Worker, a)), st.mem.len, a.name)
  {
    hide Run, FailureSteps, ConfigureSteps;
    var first, steps := Phase(a, CreatingServer), AttemptSteps(Worker, a);
    AttemptIsNamed(Worker, a);
    assert steps[0] == first;
    assert [first] + steps[1..] == steps;
    hide AttemptSteps, ProvisionSteps;
    EntryNone(Contents(st.mem), a.name);
    RunOne(st, first);
    RunConcat(st, [first], steps[1..]);
    AtEndStep(st, first, a.name);
    AtEndRun(Apply(st, first), steps[1..], a.name);
  }

  /** With two unhealthy workers, the second of them last in the list, the replacement
      attempted for the first is itself drained whenever the second turn comes: with a
      cap of one when the attempt fails, and with a larger cap in any case. */
  lemma {:induction false} ReplacementIsDrained(st: State, p: nat, hs: seq<Heal>, cap: nat)
    requires Ok(st.mem) && st.mem.aliased && UniqueNames(Contents(st.mem)) && p + 1 < st.mem.len
    requires |hs| == 2 && hs[0].attempt.name !in Names(Contents(st.mem))
    requires !NodeObjectRefused(hs[0]) && hs[0].prepared
    requires cap > if Succeeds(hs[0].attempt) then 1 else 0
    ensures Do(Drained(hs[0].attempt.name)) in HealSteps(st, [p, st.mem.len - 1], hs, cap)
  {
    hide HealSteps, ReplaceSteps, Run, Contents, Names, UniqueNames, NodeObjectRefused, Succeeds;
    var ptrs := [p, st.mem.len - 1];
    var st1 := Run(st, ReplaceSteps(st.mem.pinned[p].name, hs[0]));
    LastPointerMeetsReplacement(st, p, hs[0]);
    HealUnfolds(st, ptrs, hs, cap);
    assert ptrs[1..] == [st.mem.len - 1] && hs[1..] == [hs[1]];
    FirstIsDrained(st1, ptrs[1..], hs[1..], if ReplaceSucceeds(hs[0]) then cap - 1 else cap);
  }

  lemma FirstIsDrained(st: State, ptrs: seq<nat>, hs: seq<Heal>, budget: nat)
    requires Ok(st.mem) && |ptrs| == |hs| > 0 && budget > 0
    requires forall i | 0 <= i < |ptrs| :: ptrs[i] < |st.mem.pinned|
    ensures Do(Drained(st.mem.pinned[ptrs[0]].name)) in HealSteps(st, ptrs, hs, budget)
  {
    var x := st.mem.pinned[ptrs[0]].name;
    assert DrainSteps(x, hs[0])[1] == Do(Drained(x));
    assert Do(Drained(x)) in ReplaceSteps(x, hs[0]);
    hide ReplaceSteps, Run, HealSteps;
    HealUnfolds(st, ptrs, hs, budget);
  }

  /** A concrete case, with the cap of one that the operator ships with: the drained
      node was neither listed nor unhealthy. */
  lemma OnlyPastThresholdIsFalse()
    ensures exists nodes: seq<NodeStatus>, hs: seq<Heal> ::
      var st := State(Mem(nodes, |nodes|, nodes, true), []);
      && |nodes| == |hs| == 2 && UniqueNames(nodes)
      && (forall i | 0 <= i < 2 :: PastThreshold(nodes[i], 180, 1000))
      && Do(Drained(hs[0].attempt.name)) in HealSteps(st, [0, 1], hs, 1)
      && hs[0].attempt.name !in Names(nodes)
  {
    hide HealSteps, Run;
    var sick := (name: string) => NodeStatus(name, 7, "", "10.0.64.2", NoPhase, None, false, Some(100));
    var nodes := [sick("w-a"), sick("w-b")];
    var heal := (name: string) => Heal(true, true, true, true, Attempt(name, NoAddress, Configured, true, 1000), 1000);
    var hs := [heal("w-c"), heal("w-d")];
    var st := State(Mem(nodes, 2, nodes, true), []);
    assert Contents(st.mem) == nodes;
    ReplacementIsDrained(st, 0, hs, 1);
  }

  // ---- The operator's methods ----------------------------------------------

  function PastThresholdPointers(nodes: seq<NodeStatus>, threshold: int, now: nat): seq<nat> {
    if nodes == [] then []
    else
      var k := |nodes| - 1;
      PastThresholdPointers(nodes[..k], threshold, now) + if PastThreshold(nodes[k], threshold, now) then [k] else []
  }

  lemma {:induction false} PointersAreExact(nodes: seq<NodeStatus>, threshold: int, now: nat)
    ensures var ptrs := PastThresholdPointers(nodes, threshold, now);
            && Increasing(ptrs) && (forall k | 0 <= k < |ptrs| :: ptrs[k] < |nodes|)
            && forall i | 0 <= i < |nodes| :: i in ptrs <==> PastThreshold(nodes[i], threshold, now)
  {
    if nodes != [] {
      var k := |nodes| - 1;
      PointersAreExact(nodes[..k], threshold, now);
      hide PastThreshold;
      var before := PastThresholdPointers(nodes[..k], threshold, now);
      assert k !in before;
      forall i | 0 <= i < k ensures i in before <==> PastThreshold(nodes[i], threshold, now) {
        assert nodes[i] == nodes[..k][i];
      }
    }
  }

  function PastNames(nodes: seq<NodeStatus>, threshold: int, now: nat): set<string> {
    set i | 0 <= i < |nodes| && PastThreshold(nodes[i], threshold, now) :: nodes[i].name
  }

  /** Whatever fails and however many replacements are allowed: every step of the loop,
      so every drain and deletion, concerns a worker that was past the threshold when
      it began or was created by it, and every other worker's entry stays as it was. */
  lemma HealingActsOnPastThreshold(st: State, threshold: int, now: nat, hs: seq<Heal>, budget: nat)
    requires Ok(st.mem) && st.mem.aliased && UniqueNames(Contents(st.mem)) && FreshNames(hs, Names(Contents(st.mem)))
    requires |hs| == |PastThresholdPointers(Contents(st.mem), threshold, now)|
    ensures var ptrs := PastThresholdPointers(Contents(st.mem), threshold, now);
            forall i | 0 <= i < |ptrs| :: ptrs[i] < |st.mem.pinned|
    ensures var list := Contents(st.mem);
            var steps := HealSteps(st, PastThresholdPointers(list, threshold, now), hs, budget);
            var touched := PastNames(list, threshold, now) + CreatedNames(hs);
            && (forall s | s in steps :: StepName(s) in touched)
            && (forall name | name !in touched :: Entry(Contents(Run(st, steps).mem), name) == Entry(list, name))
  {
    var list := Contents(st.mem);
    var ptrs, doomed := PastThresholdPointers(list, threshold, now), PastNames(list, threshold, now);
    PointersAreExact(list, threshold, now);
    assert PointAt(st.mem, ptrs, doomed) by {
      forall k | 0 <= k < |ptrs| ensures list[ptrs[k]].name in doomed { assert ptrs[k] in ptrs; }
    }
    assert doomed + Names(list) == Names(list);
    hide HealSteps, Run, PastThresholdPointers, PastNames, PastThreshold, UniqueNames, Entry, Names;
    HealingSparesBystanders(st, ptrs, hs, budget, doomed);
    forall name | name !in doomed + CreatedNames(hs)
      ensures Entry(Contents(Run(st, HealSteps(st, ptrs, hs, budget)).mem), name) == Entry(list, name)
    {
      BystanderKeepsEntry(st, ptrs, hs, budget, doomed, name);
    }
  }

  /** Pointers to the workers that have been unhealthy for longer than the threshold. */
  method FindUnhealthyNodes(g: NodeGroup, threshold: int, now: nat) returns (ptrs: seq<nat>)
    requires g.Valid()
    modifies g`pins, g`start, g`trace
    ensures g.Valid() && g.pins == g.backing && g.trace == []
    ensures g.View().mem == old(g.View().mem).(pinned := old(g.View().mem.slots), aliased := true)
    ensures ptrs == PastThresholdPointers(g.List(), threshold, now)
  {
    g.Pin();
    ptrs := [];
    for i := 0 to g.length
      invariant ptrs == PastThresholdPointers(g.List()[..i], threshold, now)
    {
      assert g.List()[..i + 1][..i] == g.List()[..i];
      var n := g.backing[i];
      if !n.healthy && n.unhealthySince.Some? {
        if now - n.unhealthySince.value > threshold {
          ptrs := ptrs + [i];
        }
      }
    }
    assert g.List()[..g.length] == g.List();
  }

  lemma PointedNameHolds(start: State, trace: seq<Step>, s: Step, p: nat, name: string)
    requires Ok(start.mem) && PinnedName(Run(start, trace), p, name)
    requires !s.Remove? && StepName(s) == name
    ensures PinnedName(Run(start, trace + [s]), p, name)
  {
    hide Run;
    RunConcat(start, trace, [s]);
    UpdatesAreMild(Run(start, trace), [s], name);
  }

  /** The name is read through the pointer before every call, as the operator does. */
  method DrainAndDeleteWorker(g: NodeGroup, p: nat, h: Heal) returns (ok: bool)
    requires g.Valid() && p < g.pins.Length
    modifies g, g.backing
    ensures g.Did(DrainSteps(old(g.pins[p].name), h))
    ensures g.pins[p].name == old(g.pins[p].name)
    ensures ok == !NodeObjectRefused(h)
  {
    hide Run, DeleteSteps;
    ghost var x, t := g.pins[p].name, g.trace;
    assert PinnedName(g.View(), p, x);
    PointedNameHolds(g.start, t, Update(PhaseUpdate(x, Draining), h.at), p, x);
    g.UpdateNodePhase(PhaseUpdate(g.pins[p].name, Draining), h.at);
    PointedNameHolds(g.start, g.trace, Do(Drained(x)), p, x);
    g.Emit(Drained(g.pins[p].name));
    PointedNameHolds(g.start, g.trace, Update(PhaseUpdate(x, DeletingServer), h.at), p, x);
    ok := DeleteNodeAndServer(g, p, h, x);
  }

  method DeleteNodeAndServer(g: NodeGroup, p: nat, h: Heal, ghost x: string) returns (ok: bool)
    requires g.Valid() && PinnedName(g.View(), p, x)
    requires PinnedName(Run(g.start, g.trace + [Update(PhaseUpdate(x, DeletingServer), h.at)]), p, x)
    modifies g, g.backing
    ensures g.Did(DeleteSteps(x, h)) && PinnedName(g.View(), p, x)
    ensures ok == !NodeObjectRefused(h)
  {
    hide Run;
    g.UpdateNodePhase(PhaseUpdate(g.pins[p].name, DeletingServer), h.at);
    assert PinnedName(g.View(), p, x);
    if h.nodeFound {
      if !h.nodeDeleteOk {
        return false;
      }
      PointedNameHolds(g.start, g.trace, Do(NodeObjectDeleted(x)), p, x);
      g.Emit(NodeObjectDeleted(g.pins[p].name));
    }
    if g.pins[p].name != "" {
      PointedNameHolds(g.start, g.trace, DeleteEffect(x, h.serverDeleteOk), p, x);
      g.Emit(if h.serverDeleteOk then ServerDeleted(g.pins[p].name) else ServerDeleteFailed(g.pins[p].name));
    }
    return true;
  }

  method ReplaceWorker(g: NodeGroup, p: nat, h: Heal) returns (ok: bool)
    requires g.Valid() && p < g.pins.Length
    modifies g, g.backing
    ensures g.Did(ReplaceSteps(old(g.pins[p].name), h))
    ensures ok == ReplaceSucceeds(h)
  {
    hide Run, DrainSteps, AttemptSteps;
    ok := DrainAndDeleteWorker(g, p, h);
    if !ok {
      return false;
    }
    g.RemoveNodeFromStatus(g.pins[p].name);
    if !h.prepared {
      return false;
    }
    ok := ProvisionAndConfigureNode(g, Worker, h.attempt);
  }

  method ReplaceUnhealthyWorkers(g: NodeGroup, ptrs: seq<nat>, hs: seq<Heal>, maxConcurrentHeals: nat)
    returns (replaced: nat)
    requires g.Valid() && |ptrs| == |hs| && forall i | 0 <= i < |ptrs| :: ptrs[i] < g.pins.Length
    modifies g, g.backing
    ensures g.Did(HealSteps(old(g.View()), ptrs, hs, maxConcurrentHeals))
    ensures replaced <= maxConcurrentHeals && replaced <= |ptrs|
  {
    hide Run, HealSteps, ReplaceSteps;
    replaced := 0;
    var k := 0;
    ghost var st, done := g.View(), [];
    assert ptrs[0..] == ptrs && hs[0..] == hs;
    while k < |ptrs| && replaced < maxConcurrentHeals
      invariant replaced <= k <= |ptrs| && replaced <= maxConcurrentHeals
      invariant g.Did(done)
      invariant HealSteps(st, ptrs, hs, maxConcurrentHeals) ==
                done + HealSteps(g.View(), ptrs[k..], hs[k..], maxConcurrentHeals - replaced)
    {
      ghost var before, t, steps := g.View(), g.trace, ReplaceSteps(g.pins[ptrs[k]].name, hs[k]);
      var ok := ReplaceWorker(g, ptrs[k], hs[k]);
      RunConcat(g.start, t, steps);
      HealUnfolds(before, ptrs[k..], hs[k..], maxConcurrentHeals - replaced);
      assert ptrs[k..][1..] == ptrs[k + 1..] && hs[k..][1..] == hs[k + 1..];
      if ok {
        replaced := replaced + 1;
      }
      done := done + steps;
      k := k + 1;
    }
    HealEnds(g.View(), ptrs[k..], hs[k..], maxConcurrentHeals - replaced);
  }

  lemma HealEnds(st: State, ptrs: seq<nat>, hs: seq<Heal>, budget: nat)
    requires Ok(st.mem) && |ptrs| == |hs| && (ptrs == [] || budget == 0)
    requires forall i | 0 <= i < |ptrs| :: ptrs[i] < |st.mem.pinned|
    ensures HealSteps(st, ptrs, hs, budget) == []
  {
  }

  lemma HealUnfolds(st: State, ptrs: seq<nat>, hs: seq<Heal>, budget: nat)
    requires Ok(st.mem) && |ptrs| == |hs| > 0 && budget > 0
    requires forall i | 0 <= i < |ptrs| :: ptrs[i] < |st.mem.pinned|
    ensures var steps := ReplaceSteps(st.mem.pinned[ptrs[0]].name, hs[0]);
            && |Run(st, steps).mem.pinned| == |st.mem.pinned|
            && HealSteps(st, ptrs, hs, budget) ==
               steps + HealSteps(Run(st, steps), ptrs[1..], hs[1..],
                                 if ReplaceSucceeds(hs[0]) then budget - 1 else budget)
  {
    PinnedKeepsLength(st, ReplaceSteps(st.mem.pinned[ptrs[0]].name, hs[0]));
  }
}
