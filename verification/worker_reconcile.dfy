/** One pass over the workers: heal, then scale. And whole runs of passes. */
module WorkerReconcile {
  import opened Sequences
  import opened Nodes
  import opened Steps
  import opened NodeGroups
  import opened Provisioning
  import opened Interleaving
  import opened AttemptResults
  import opened Fleet
  import opened Health
  import opened Healing
  import opened WorkerScaleUp
  import opened WorkerScaleDown

  // What the pass meets: how a request for n workers turns out, and how the
  // removal of a worker turns out.
  datatype Answers = Answers(
    prepared: bool,
    supply: nat -> seq<Attempt>,
    first: nat -> seq<nat>,
    second: nat -> seq<nat>,
    removal: string -> Decommission)

  ghost predicate Consistent(ans: Answers) {
    forall n: nat {:trigger ans.supply(n)} ::
      |ans.supply(n)| == n && Scheduled(ans.supply(n), ans.first(n), ans.second(n))
  }

  function SelectedNames(nodes: seq<NodeStatus>, count: int): seq<string> {
    var sel := Selection(nodes, count);
    seq(|sel|, i requires 0 <= i < |sel| => if sel[i] < |nodes| then nodes[sel[i]].name else "")
  }

  function Removals(names: seq<string>, ans: Answers): (ds: seq<Decommission>)
    ensures |ds| == |names|
  {
    seq(|names|, i requires 0 <= i < |names| => ans.removal(names[i]))
  }

  /** What the scaling half does to the world. */
  ghost function ScaleSteps(nodes: seq<NodeStatus>, desired: nat, cap: nat, ans: Answers): seq<Step>
    requires Consistent(ans)
  {
    if CountEarly(nodes) > 0 then []
    else if |nodes| < desired then
      var n := desired - |nodes|;
      if ans.prepared then ScaleUpSteps(ans.supply(n), ans.first(n), ans.second(n)) else []
    else
      var names := SelectedNames(nodes, |nodes| - desired);
      DownSteps(names, Removals(names, ans), cap)
  }

  // ---- Invariant of a pass ------------------------------------------------------

  /** Every running server is listed, and registered in Kubernetes. */
  ghost predicate Tracked(list: seq<NodeStatus>, w: World) {
    UniqueNames(list) && w.servers <= w.registered && "" !in w.servers
    && forall n | n in w.servers :: Entry(list, n).Some?
  }

  // Deletions succeed and the attempt is clean.
  ghost predicate CleanHeal(h: Heal) {
    h.serverDeleteOk && Clean(h.attempt)
  }

  lemma DrainByName(name: string, h: Heal, p: Presence, e: Option<NodeStatus>)
    requires h.serverDeleteOk && (name == "" ==> !p.live) && (p.live ==> p.registered)
    ensures var q := RunPresence(p, DrainSteps(name, h));
            && (q.live ==> q.registered) && (!NodeObjectRefused(h) ==> !q.live)
    ensures RunEntry(e, DrainSteps(name, h)).Some?
  {
    hide RunPresence, RunEntry;
    var s1, s2, s3 := Update(PhaseUpdate(name, Draining), h.at), Do(Drained(name)),
                      Update(PhaseUpdate(name, DeletingServer), h.at);
    var rest := if NodeObjectRefused(h) then []
                else (if h.nodeFound then [Do(NodeObjectDeleted(name))] else []) +
                     if name != "" then [DeleteEffect(name, true)] else [];
    assert DrainSteps(name, h) == [s1, s2, s3] + rest;
    RunPresenceConcat(p, [s1, s2, s3], rest);
    RunEntryConcat(e, [s1, s2, s3], rest);
    PresenceThree(p, s1, s2, s3);
    EntryThree(e, s1, s2, s3);
    DeletionsByName(name, h, p, RunEntry(e, [s1, s2, s3]), rest);
  }

  lemma DeletionsByName(name: string, h: Heal, p: Presence, e: Option<NodeStatus>, rest: seq<Step>)
    requires (name == "" ==> !p.live) && (p.live ==> p.registered) && e.Some?
    requires rest == if NodeObjectRefused(h) then []
                     else (if h.nodeFound then [Do(NodeObjectDeleted(name))] else []) +
                          if name != "" then [DeleteEffect(name, true)] else []
    ensures var q := RunPresence(p, rest);
            && (q.live ==> q.registered) && (!NodeObjectRefused(h) ==> !q.live)
    ensures RunEntry(e, rest) == e
  {
    var d, s := Do(NodeObjectDeleted(name)), DeleteEffect(name, true);
    assert RunPresence(p, []) == p && RunEntry(e, []) == e;
    PresenceOne(p, d);
    PresenceOne(p, s);
    PresenceThree(p, d, s, s);
    EntryThree(e, d, s, s);
    EntryThree(e, s, s, s);
    hide RunPresence, RunEntry;
    assert rest == [] || rest == [d] || rest == [s] || rest == [d, s];
  }

  lemma OwnInReplace(name: string, h: Heal, other: string)
    requires h.attempt.name != name
    ensures Own(ReplaceSteps(name, h), other) ==
            if other == name then (if NodeObjectRefused(h) then DrainSteps(name, h) else RemovalSteps(name, h))
            else if other == h.attempt.name && !NodeObjectRefused(h) && h.prepared then AttemptSteps(Worker, h.attempt)
            else []
  {
    DrainIsNamed(name, h);
    AttemptIsNamed(Worker, h.attempt);
    hide Own, DrainSteps, RemovalSteps, AttemptSteps, NamedBy;
    OwnOfNamed(DrainSteps(name, h), name, other);
    OwnOfNamed(RemovalSteps(name, h), name, other);
    OwnOfNamed(AttemptSteps(Worker, h.attempt), h.attempt.name, other);
    OwnConcat(RemovalSteps(name, h), AttemptSteps(Worker, h.attempt), other);
  }

  lemma RemovalByName(name: string, h: Heal, p: Presence, e: Option<NodeStatus>)
    requires h.serverDeleteOk && (name == "" ==> !p.live) && (p.live ==> p.registered) && !NodeObjectRefused(h)
    ensures !RunPresence(p, RemovalSteps(name, h)).live
    ensures RunEntry(e, RemovalSteps(name, h)) == None
  {
    DrainByName(name, h, p, e);
    hide RunPresence, RunEntry, DrainSteps;
    RunPresenceConcat(p, DrainSteps(name, h), [Remove(name)]);
    RunEntryConcat(e, DrainSteps(name, h), [Remove(name)]);
    PresenceOne(RunPresence(p, DrainSteps(name, h)), Remove(name));
    EntryThree(RunEntry(e, DrainSteps(name, h)), Remove(name), Remove(name), Remove(name));
  }

  /** One replacement keeps every server listed and registered. */
  lemma ReplaceKeepsTracked(list: seq<NodeStatus>, w: World, name: string, h: Heal)
    requires Tracked(list, w) && CleanHeal(h)
    requires h.attempt.name != name && h.attempt.name != "" && Entry(list, h.attempt.name) == None
    ensures var steps := ReplaceSteps(name, h);
            Tracked(RunList(list, steps), ObserveAll(w, Effects(steps)))
  {
    hide RunList, ObserveAll, Own, Entry, RunEntry, RunPresence, ReplaceSteps, DrainSteps, RemovalSteps, AttemptSteps;
    var steps := ReplaceSteps(name, h);
    var after, w' := RunList(list, steps), ObserveAll(w, Effects(steps));
    EntryAfterRun(list, steps, "");
    forall n
      ensures n in w'.servers ==> n in w'.registered && n != "" && Entry(after, n).Some?
    {
      EntryAfterRun(list, steps, n);
      WorldByName(w, steps, n);
      OwnInReplace(name, h, n);
      if n == name {
        if NodeObjectRefused(h) {
          DrainByName(name, h, At(w, n), Entry(list, n));
          DrainPresence(name, h, At(w, n));
        } else {
          RemovalByName(name, h, At(w, n), Entry(list, n));
        }
      } else if n == h.attempt.name && !NodeObjectRefused(h) && h.prepared {
        AttemptPresence(At(w, n), Worker, h.attempt);
        AttemptEntry(Worker, h.attempt);
      } else {
        NothingHappened(w, n);
        assert RunEntry(Entry(list, n), []) == Entry(list, n) by { EntryUnchanged(Entry(list, n)); }
      }
    }
  }

  lemma DrainPresence(name: string, h: Heal, p: Presence)
    requires NodeObjectRefused(h)
    ensures RunPresence(p, DrainSteps(name, h)) == p
  {
    PresenceThree(p, Update(PhaseUpdate(name, Draining), h.at), Do(Drained(name)),
                  Update(PhaseUpdate(name, DeletingServer), h.at));
    hide RunPresence;
    assert DrainSteps(name, h) == [Update(PhaseUpdate(name, Draining), h.at), Do(Drained(name)),
                                   Update(PhaseUpdate(name, DeletingServer), h.at)];
  }

  /** So does the whole healing loop, whatever its pointers come to hold. */
  lemma {:induction false} HealingKeepsTracked(st: State, w: World, ptrs: seq<nat>, hs: seq<Heal>, budget: nat,
                                               doomed: set<string>)
    requires Ok(st.mem) && |ptrs| == |hs| && "" in doomed
    requires PointAt(st.mem, ptrs, doomed) && FreshNames(hs, doomed + Names(Contents(st.mem)))
    requires Tracked(Contents(st.mem), w) && forall h | h in hs :: CleanHeal(h)
    ensures var steps := HealSteps(st, ptrs, hs, budget);
            Tracked(Contents(Run(st, steps).mem), ObserveAll(w, Effects(steps)))
    decreases |ptrs|
  {
    hide Run, Contents, ReplaceSteps, Names, ObserveAll, Tracked, RunList;
    if ptrs == [] || budget == 0 {
      HealEnds(st, ptrs, hs, budget);
      NothingRan(st, w);
    } else {
      var x, f := st.mem.pinned[ptrs[0]].name, hs[0].attempt.name;
      var steps, b := ReplaceSteps(x, hs[0]), if ReplaceSucceeds(hs[0]) then budget - 1 else budget;
      var st1, w1 := Run(st, steps), ObserveAll(w, Effects(steps));
      EntryNone(Contents(st.mem), f);
      ReplaceKeepsTracked(Contents(st.mem), w, x, hs[0]);
      RunRefinesList(st, steps);
      PointersAfterReplace(st, ptrs, hs, doomed);
      HealUnfolds(st, ptrs, hs, budget);
      assert forall h | h in hs[1..] :: h in hs;
      HealingKeepsTracked(st1, w1, ptrs[1..], hs[1..], b, doomed + {f});
      var rest := HealSteps(st1, ptrs[1..], hs[1..], b);
      RunConcat(st, steps, rest);
      EffectsConcat(steps, rest);
      ObserveConcat(w, Effects(steps), Effects(rest));
    }
  }

  lemma NothingRan(st: State, w: World)
    requires Ok(st.mem)
    ensures Run(st, []) == st && ObserveAll(w, Effects([])) == w
  {
  }

  // ---- Scaling down -----------------------------------------------------------

  lemma DecommissionKeepsRegistered(w: World, name: string, d: Decommission)
    requires w.servers <= w.registered && "" !in w.servers && d.serverDeleteOk
    ensures var w' := ObserveAll(w, Effects(DecommissionSteps(name, d)));
            w'.servers <= w'.registered && w'.servers == w.servers - {name}
  {
    DecommissionEffects(name, d);
    DeletionsKeepRegistered(w, name, d.nodeFound && d.nodeDeleteOk);
    hide Effects, DecommissionSteps, ObserveAll, Optional, Observe;
    ObserveThree(w, Drained(name), d.nodeFound && d.nodeDeleteOk, NodeObjectDeleted(name),
                 name != "", ServerDeleted(name));
    assert Observe(w, Drained(name)) == w by { DrainedIsSilent(w, name); }
  }

  lemma DrainedIsSilent(w: World, name: string)
    ensures Observe(w, Drained(name)) == w
  {
  }

  lemma DecommissionEffects(name: string, d: Decommission)
    requires d.serverDeleteOk
    ensures Effects(DecommissionSteps(name, d)) ==
            [Drained(name)] + Optional(d.nodeFound && d.nodeDeleteOk, NodeObjectDeleted(name)) +
            Optional(name != "", ServerDeleted(name))
  {
    hide Effects;
    EffectsOfDos(DecommissionSteps(name, d),
                 [Drained(name)] + Optional(d.nodeFound && d.nodeDeleteOk, NodeObjectDeleted(name)) +
                 Optional(name != "", ServerDeleted(name)));
  }

  lemma ObserveThree(w: World, a: Effect, onB: bool, b: Effect, onC: bool, c: Effect)
    ensures var w1 := Observe(w, a);
            var w2 := if onB then Observe(w1, b) else w1;
            ObserveAll(w, [a] + Optional(onB, b) + Optional(onC, c)) == if onC then Observe(w2, c) else w2
  {
    ObserveOne(w, a);
    hide ObserveAll, Optional, Observe;
    ObserveConcat(w, [a] + Optional(onB, b), Optional(onC, c));
    ObserveConcat(w, [a], Optional(onB, b));
    ObserveOptional(ObserveAll(w, [a]), onB, b);
    ObserveOptional(ObserveAll(w, [a] + Optional(onB, b)), onC, c);
  }

  lemma DeletionsKeepRegistered(w: World, name: string, nodeGone: bool)
    requires w.servers <= w.registered && "" !in w.servers
    ensures var w1 := if nodeGone then Observe(w, NodeObjectDeleted(name)) else w;
            var w2 := if name != "" then Observe(w1, ServerDeleted(name)) else w1;
            w2.servers <= w2.registered && w2.servers == w.servers - {name}
  {
  }

  function Optional(on: bool, e: Effect): seq<Effect> {
    if on then [e] else []
  }

  lemma ObserveOptional(w: World, on: bool, e: Effect)
    ensures ObserveAll(w, Optional(on, e)) == if on then Observe(w, e) else w
  {
    ObserveOne(w, e);
  }

  lemma {:induction false} EffectsOfDos(steps: seq<Step>, es: seq<Effect>)
    requires |steps| == |es| && forall i | 0 <= i < |steps| :: steps[i] == Do(es[i])
    ensures Effects(steps) == es
  {
    if steps != [] {
      EffectsOfDos(steps[..|steps| - 1], es[..|es| - 1]);
    }
  }

  lemma {:induction false} DownKeepsRegistered(w: World, names: seq<string>, ds: seq<Decommission>, cap: nat)
    requires |names| == |ds| && w.servers <= w.registered && "" !in w.servers
    requires forall d | d in ds :: d.serverDeleteOk
    ensures var w' := ObserveAll(w, Effects(DownSteps(names, ds, cap)));
            && w'.servers <= w'.registered
            && w'.servers == w.servers - Deleted(names, ds, cap)
    decreases |names|
  {
    hide ObserveAll, DecommissionSteps;
    if names == [] || cap == 0 {
      assert ObserveAll(w, Effects([])) == w by { NothingObserved(w); }
    } else {
      assert ds[0] in ds && forall d | d in ds[1..] :: d in ds;
      var steps := DecommissionSteps(names[0], ds[0]);
      var w1, rest := ObserveAll(w, Effects(steps)), DownSteps(names[1..], ds[1..], cap - 1);
      DecommissionKeepsRegistered(w, names[0], ds[0]);
      DownKeepsRegistered(w1, names[1..], ds[1..], cap - 1);
      EffectsConcat(steps, rest);
      ObserveConcat(w, Effects(steps), Effects(rest));
    }
  }

  /** When node objects are found and deleted as well, the workers that lose their
      server also leave Kubernetes. */
  lemma {:induction false} DownUnregisters(w: World, names: seq<string>, ds: seq<Decommission>, cap: nat)
    requires |names| == |ds| && "" !in w.servers
    requires forall d | d in ds :: d.serverDeleteOk && d.nodeFound && d.nodeDeleteOk
    ensures ObserveAll(w, Effects(DownSteps(names, ds, cap))) ==
            World(w.servers - Deleted(names, ds, cap), w.registered - Deleted(names, ds, cap))
    decreases |names|
  {
    hide ObserveAll, DecommissionSteps;
    if names == [] || cap == 0 {
      NothingObserved(w);
    } else {
      assert ds[0] in ds && forall d | d in ds[1..] :: d in ds;
      var steps, rest := DecommissionSteps(names[0], ds[0]), DownSteps(names[1..], ds[1..], cap - 1);
      DecommissionEffects(names[0], ds[0]);
      hide Effects, Optional;
      ObserveThree(w, Drained(names[0]), true, NodeObjectDeleted(names[0]), names[0] != "", ServerDeleted(names[0]));
      var w1 := ObserveAll(w, Effects(steps));
      assert w1 == World(w.servers - {names[0]}, w.registered - {names[0]});
      DownUnregisters(w1, names[1..], ds[1..], cap - 1);
      EffectsConcat(steps, rest);
      ObserveConcat(w, Effects(steps), Effects(rest));
    }
  }

  lemma NothingObserved(w: World)
    ensures ObserveAll(w, Effects([])) == w
  {
  }

  // ---- Scaling -----------------------------------------------------------------

  /** New names are fresh, failed creates leave nothing, deletions succeed. */
  ghost predicate CleanAnswers(ans: Answers, used: set<string>) {
    && Consistent(ans)
    && (forall n: nat :: Distinct(AttemptNames(ans.supply(n))) && AllClean(ans.supply(n)))
    && (forall n: nat, name | name in AttemptNames(ans.supply(n)) :: name !in used)
    && (forall name: string :: ans.removal(name).serverDeleteOk)
  }

  lemma ServersAreListed(list: seq<NodeStatus>, w: World)
    requires Tracked(list, w)
    ensures w.servers <= Names(list) && |w.servers| <= |list|
  {
    forall n | n in w.servers ensures n in Names(list) { EntryNone(list, n); }
    NamesCount(list);
    SubsetSize(w.servers, Names(list));
  }

  lemma ScaleUpKeepsRegistered(list: seq<NodeStatus>, w: World, n: nat, ans: Answers)
    requires Tracked(list, w) && CleanAnswers(ans, Names(list) + {""})
    ensures var w' := ObserveAll(w, Effects(ScaleUpSteps(ans.supply(n), ans.first(n), ans.second(n))));
            w'.servers <= w'.registered && "" !in w'.servers
  {
    hide ObserveAll, ScaleUpSteps, Scheduled, Distinct, Names, Kept;
    ServersAreListed(list, w);
    hide Entry, UniqueNames;
    var attempts := ans.supply(n);
    assert forall m | m in AttemptNames(attempts) :: m !in Names(list) + {""};
    ScaleUpKeepsServersRegistered(w, attempts, ans.first(n), ans.second(n));
    forall a | a in attempts ensures a.name != "" {
      var i :| 0 <= i < n && attempts[i] == a;
      assert AttemptNames(attempts)[i] in AttemptNames(attempts);
    }
  }

  lemma ScalingKeepsRegistered(list: seq<NodeStatus>, w: World, desired: nat, cap: nat, ans: Answers)
    requires Tracked(list, w) && CleanAnswers(ans, Names(list) + {""})
    ensures var w' := ObserveAll(w, Effects(ScaleSteps(list, desired, cap, ans)));
            w'.servers <= w'.registered && "" !in w'.servers
  {
    hide ObserveAll, ScaleUpSteps, DownSteps, Scheduled, Distinct, Names, Entry, UniqueNames;
    NothingObserved(w);
    if |list| < desired {
      ScaleUpKeepsRegistered(list, w, desired - |list|, ans);
    } else {
      var names := SelectedNames(list, |list| - desired);
      DownKeepsRegistered(w, names, Removals(names, ans), cap);
    }
  }

  /** At no moment of a scale-up is the number of running workers above the
      desired count. */
  lemma ScalingNeverOvershoots(list: seq<NodeStatus>, w: World, desired: nat, cap: nat, ans: Answers, moment: nat)
    requires Tracked(list, w) && CleanAnswers(ans, Names(list) + {""}) && |list| < desired
    requires moment <= |ScaleSteps(list, desired, cap, ans)|
    ensures |ObserveAll(w, Effects(ScaleSteps(list, desired, cap, ans)[..moment])).servers| <= desired
  {
    hide ObserveAll, ScaleUpSteps, Scheduled, Distinct, Names, Tracked;
    ServersAreListed(list, w);
    var n := desired - |list|;
    if CountEarly(list) == 0 && ans.prepared {
      ScaleUpNeverOvershoots(w, ans.supply(n), ans.first(n), ans.second(n), moment, desired);
    } else {
      NothingObserved(w);
    }
  }

  // ---- One pass, and runs of passes ----------------------------------------------

  // The registered nodes the health check sees, and what the pass meets.
  datatype PassInput = PassInput(kube: seq<KubeNode>, threshold: int, now: nat, hs: seq<Heal>, ans: Answers)

  function Rebuilt(i: PassInput): (st: State)
    ensures Ok(st.mem)
  {
    var list := ObservedAll(i.kube);
    State(Mem(list, |list|, list, true), [])
  }

  function Pointers(i: PassInput): seq<nat> {
    PastThresholdPointers(ObservedAll(i.kube), i.threshold, i.now)
  }

  ghost predicate Answered(i: PassInput) {
    |i.hs| == |Pointers(i)| && Consistent(i.ans)
    && forall k | 0 <= k < |Pointers(i)| :: Pointers(i)[k] < |i.kube|
  }

  ghost function HealPart(i: PassInput, cap: nat): seq<Step>
    requires Answered(i)
  {
    HealSteps(Rebuilt(i), Pointers(i), i.hs, cap)
  }

  ghost function ListAfterHealing(i: PassInput, cap: nat): seq<NodeStatus>
    requires Answered(i)
  {
    Contents(Run(Rebuilt(i), HealPart(i, cap)).mem)
  }

  ghost function ScalePart(i: PassInput, desired: nat, cap: nat): seq<Step>
    requires Answered(i)
  {
    ScaleSteps(ListAfterHealing(i, cap), desired, cap, i.ans)
  }

  ghost function WorldAfterHealing(w: World, i: PassInput, cap: nat): World
    requires Answered(i)
  {
    ObserveAll(w, Effects(HealPart(i, cap)))
  }

  ghost function WorldAfterPass(w: World, i: PassInput, desired: nat, cap: nat): World
    requires Answered(i)
  {
    ObserveAll(WorldAfterHealing(w, i, cap), Effects(ScalePart(i, desired, cap)))
  }

  /** The health check saw exactly the registered nodes, and the environment
      kept its side: clean failures, working deletions, fresh names. */
  ghost predicate Sound(w: World, i: PassInput) {
    var list := ObservedAll(i.kube);
    && Answered(i)
    && UniqueNames(list) && Names(list) == w.registered
    && (forall h | h in i.hs :: CleanHeal(h))
    && FreshNames(i.hs, Names(list) + {""})
    && CleanAnswers(i.ans, Names(list) + CreatedNames(i.hs) + {""})
  }

  ghost predicate Covered(w: World) {
    w.servers <= w.registered && "" !in w.servers
  }

  lemma HealingLeavesTracked(w: World, i: PassInput, cap: nat)
    requires Sound(w, i) && Covered(w)
    ensures Tracked(ListAfterHealing(i, cap), WorldAfterHealing(w, i, cap))
    ensures Names(ListAfterHealing(i, cap)) <= Names(ObservedAll(i.kube)) + CreatedNames(i.hs)
  {
    var list, st, ptrs, doomed := ObservedAll(i.kube), Rebuilt(i), Pointers(i), Names(ObservedAll(i.kube)) + {""};
    assert Contents(st.mem) == list;
    PointersAreExact(list, i.threshold, i.now);
    assert PointAt(st.mem, ptrs, doomed) by {
      forall k | 0 <= k < |ptrs| ensures list[ptrs[k]].name in Names(list) {}
    }
    forall n | n in w.servers ensures Entry(list, n).Some? { EntryNone(list, n); }
    hide HealSteps, Names, ObserveAll, Run, RunList, PastThresholdPointers, Entry, UniqueNames, Consistent;
    assert doomed + Names(Contents(st.mem)) == doomed;
    HealingKeepsTracked(st, w, ptrs, i.hs, cap, doomed);
    HealedNames(i, cap, doomed);
  }

  lemma HealedNames(i: PassInput, cap: nat, doomed: set<string>)
    requires Answered(i) && doomed == Names(ObservedAll(i.kube)) + {""}
    requires PointAt(Rebuilt(i).mem, Pointers(i), Names(ObservedAll(i.kube)) + {""})
    requires FreshNames(i.hs, doomed)
    ensures Names(ListAfterHealing(i, cap)) <= Names(ObservedAll(i.kube)) + CreatedNames(i.hs)
  {
    var list, st, ptrs := ObservedAll(i.kube), Rebuilt(i), Pointers(i);
    assert Contents(st.mem) == list;
    PointersAreExact(list, i.threshold, i.now);
    var names := Names(list);
    assert PointAt(st.mem, ptrs, names) by {
      forall k | 0 <= k < |ptrs| ensures list[ptrs[k]].name in Names(list) {}
    }
    hide HealSteps, Names, Run, RunList, PastThresholdPointers, Consistent;
    assert names + names == names;
    HealingSparesBystanders(st, ptrs, i.hs, cap, names);
    RunRefinesList(st, HealPart(i, cap));
    NamesAfterRun(list, HealPart(i, cap));
  }

  /** A pass ends with every running worker server registered in Kubernetes. */
  lemma PassKeepsCovered(w: World, i: PassInput, desired: nat, cap: nat)
    requires Sound(w, i) && Covered(w)
    ensures Covered(WorldAfterPass(w, i, desired, cap))
  {
    hide HealPart, ScaleSteps, ObserveAll, Names, ListAfterHealing, WorldAfterHealing, Tracked, Consistent;
    HealingLeavesTracked(w, i, cap);
    FewerUsed(w, i, cap);
    ScalingKeepsRegistered(ListAfterHealing(i, cap), WorldAfterHealing(w, i, cap), desired, cap, i.ans);
  }

  lemma FewerUsed(w: World, i: PassInput, cap: nat)
    requires Sound(w, i)
    requires Names(ListAfterHealing(i, cap)) <= Names(ObservedAll(i.kube)) + CreatedNames(i.hs)
    ensures CleanAnswers(i.ans, Names(ListAfterHealing(i, cap)) + {""})
  {
    hide HealPart, Names, ListAfterHealing, Consistent, CreatedNames, Distinct, AttemptNames, Pointers;
    var used, all := Names(ListAfterHealing(i, cap)) + {""}, Names(ObservedAll(i.kube)) + CreatedNames(i.hs) + {""};
    assert used <= all;
  }

  /** Whenever a pass scales up, the number of running worker servers stays at
      or below the desired count at every moment of it. */
  lemma PassNeverOvershoots(w: World, i: PassInput, desired: nat, cap: nat, moment: nat)
    requires Sound(w, i) && Covered(w)
    requires |ListAfterHealing(i, cap)| < desired && moment <= |ScalePart(i, desired, cap)|
    ensures |ObserveAll(WorldAfterHealing(w, i, cap), Effects(ScalePart(i, desired, cap)[..moment])).servers| <= desired
  {
    hide HealPart, ScaleSteps, ObserveAll, Names, ListAfterHealing, WorldAfterHealing, Tracked, Consistent;
    HealingLeavesTracked(w, i, cap);
    FewerUsed(w, i, cap);
    ScalingNeverOvershoots(ListAfterHealing(i, cap), WorldAfterHealing(w, i, cap), desired, cap, i.ans, moment);
  }

  // Between passes servers may vanish and nodes may register, but the environment
  // starts no server and drops no node whose server still runs.
  ghost predicate EnvironmentStep(w: World, w': World) {
    w'.servers <= w.servers && w.registered * w'.servers <= w'.registered
  }

  datatype Turn = Environment | Pass(input: PassInput)

  ghost predicate TurnFrom(w: World, turn: Turn, w': World, desired: nat, cap: nat) {
    match turn
    case Environment => EnvironmentStep(w, w')
    case Pass(i) => Sound(w, i) && w' == WorldAfterPass(w, i, desired, cap)
  }

  ghost predicate Turns(ws: seq<World>, turns: seq<Turn>, desired: nat, cap: nat) {
    |ws| == |turns| + 1
    && forall k | 0 <= k < |turns| :: TurnFrom(ws[k], turns[k], ws[k + 1], desired, cap)
  }

  /** Over any run with a fixed desired count, before every pass and after it
      every running worker server is a registered node. */
  lemma {:induction false} WorkersNeverLost(ws: seq<World>, turns: seq<Turn>, desired: nat, cap: nat, k: nat)
    requires Turns(ws, turns, desired, cap) && Covered(ws[0]) && k < |ws|
    ensures Covered(ws[k])
  {
    hide Sound, WorldAfterPass;
    if k > 0 {
      WorkersNeverLost(ws, turns, desired, cap, k - 1);
      assert TurnFrom(ws[k - 1], turns[k - 1], ws[k], desired, cap);
      if turns[k - 1].Pass? {
        PassKeepsCovered(ws[k - 1], turns[k - 1].input, desired, cap);
      }
    }
  }

  /** So no scale-up of the run ever has more workers running than desired. */
  lemma RunNeverOvershoots(ws: seq<World>, turns: seq<Turn>, desired: nat, cap: nat, k: nat, moment: nat)
    requires Turns(ws, turns, desired, cap) && Covered(ws[0]) && k < |turns| && turns[k].Pass?
    requires Answered(turns[k].input)
    requires |ListAfterHealing(turns[k].input, cap)| < desired
    requires moment <= |ScalePart(turns[k].input, desired, cap)|
    ensures |ObserveAll(WorldAfterHealing(ws[k], turns[k].input, cap),
                        Effects(ScalePart(turns[k].input, desired, cap)[..moment])).servers| <= desired
  {
    var i := turns[k].input;
    assert TurnFrom(ws[k], Pass(i), ws[k + 1], desired, cap);
    hide WorldAfterPass, ScalePart, ListAfterHealing, Sound;
    WorkersNeverLost(ws, turns, desired, cap, k);
    PassNeverOvershoots(ws[k], i, desired, cap, moment);
  }
}
