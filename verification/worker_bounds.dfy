/** How many workers run during a whole pass, healing included, and how soon an excess
    of them is gone. */
module WorkerBounds {
  import opened Sequences
  import opened Nodes
  import opened Steps
  import opened Provisioning
  import opened Interleaving
  import opened AttemptResults
  import opened Fleet
  import opened Health
  import opened Healing
  import opened DrainedReplacements
  import opened WorkerScaleUp
  import opened WorkerScaleDown
  import opened WorkerReconcile
  import opened WorkerPass

  // ---- A node runs only while it is listed -----------------------------------------------

  // After every prefix of the steps about one node, it is listed if it runs.
  ghost predicate ListedThroughout(p: Presence, e: Option<NodeStatus>, own: seq<Step>) {
    forall m | 0 <= m <= |own| :: RunPresence(p, own[..m]).live ==> RunEntry(e, own[..m]).Some?
  }

  // Starts with an upsert and removes the entry with its last step or not at all.
  ghost predicate RemovesLast(own: seq<Step>) {
    own != [] && own[0].Update? && forall i | 0 <= i < |own| - 1 :: !own[i].Remove?
  }

  lemma {:induction false} ListedSoFar(e: Option<NodeStatus>, own: seq<Step>, m: nat)
    requires RemovesLast(own) && 0 < m < |own|
    ensures RunEntry(e, own[..m]).Some?
  {
    assert own[..m][..m - 1] == own[..m - 1];
    if m > 1 {
      ListedSoFar(e, own, m - 1);
    }
  }

  lemma ScriptIsListed(p: Presence, e: Option<NodeStatus>, own: seq<Step>)
    requires RemovesLast(own) && (p.live ==> e.Some?)
    requires RunPresence(p, own).live ==> RunEntry(e, own).Some?
    ensures ListedThroughout(p, e, own)
  {
    hide RunPresence, RunEntry, RemovesLast;
    forall m | 0 <= m <= |own| ensures RunPresence(p, own[..m]).live ==> RunEntry(e, own[..m]).Some? {
      assert own[..|own|] == own;
      if m == 0 {
        assert RunPresence(p, []) == p && RunEntry(e, []) == e by { NothingHappens(p, e); }
      } else if m < |own| {
        ListedSoFar(e, own, m);
      }
    }
  }

  lemma NothingHappens(p: Presence, e: Option<NodeStatus>)
    ensures RunPresence(p, []) == p && RunEntry(e, []) == e
  {
  }

  lemma DrainRemovesLast(name: string, h: Heal)
    ensures RemovesLast(DrainSteps(name, h)) && RemovesLast(RemovalSteps(name, h))
  {
    DrainOnlyUpdates(name, h);
    assert DrainSteps(name, h)[0].Update?;
    hide DrainSteps;
  }

  lemma AttemptRemovesLast(a: Attempt)
    ensures RemovesLast(AttemptSteps(Worker, a))
  {
    var p := ProvisionSteps(a);
    assert RemovesLast(p) && (a.server.Provisioned? ==> !p[|p| - 1].Remove?) by { ProvisionRemovesLast(a); }
    hide ProvisionSteps;
    if a.server.Provisioned? {
      var c := ConfigureSteps(Worker, a);
      assert forall i | 0 <= i < |c| - 1 :: !c[i].Remove? by { ConfigureRemovesLast(a); }
      hide ConfigureSteps;
      var all := AttemptSteps(Worker, a);
      assert all == p + ([AddressStep(a)] + c);
      forall i | 0 <= i < |all| - 1 ensures !all[i].Remove? {
        if i > |p| { assert all[i] == c[i - |p| - 1]; }
      }
    } else {
      assert AttemptSteps(Worker, a) == p;
    }
  }

  lemma ProvisionRemovesLast(a: Attempt)
    ensures var p := ProvisionSteps(a); RemovesLast(p) && (a.server.Provisioned? ==> !p[|p| - 1].Remove?)
  {
  }

  lemma ConfigureRemovesLast(a: Attempt)
    ensures var c := ConfigureSteps(Worker, a); forall i | 0 <= i < |c| - 1 :: !c[i].Remove?
  {
    var f := FailureSteps(a);
    assert |f| == 3 && !f[0].Remove? && !f[1].Remove?;
    hide FailureSteps;
    var w := WaitSteps(Worker, a);
    assert forall i | 0 <= i < |w| - 1 :: !w[i].Remove?;
    hide WaitSteps;
  }

  // ---- Every moment of one replacement ------------------------------------------------------

  // The servers that run are among the listed names.
  ghost predicate Listed(list: seq<NodeStatus>, w: World) {
    w.servers <= Names(list)
  }

  lemma OwnPrefix(steps: seq<Step>, m: nat, name: string)
    requires m <= |steps|
    ensures var k := |Own(steps[..m], name)|;
            k <= |Own(steps, name)| && Own(steps[..m], name) == Own(steps, name)[..k]
  {
    hide Own;
    assert steps == steps[..m] + steps[m..];
    OwnConcat(steps[..m], steps[m..], name);
  }

  // What one replacement does to one name is listed throughout.
  lemma OwnIsListed(list: seq<NodeStatus>, w: World, name: string, h: Heal, n: string)
    requires Tracked(list, w) && CleanHeal(h)
    requires h.attempt.name != name && h.attempt.name != "" && Entry(list, h.attempt.name) == None
    ensures ListedThroughout(At(w, n), Entry(list, n), Own(ReplaceSteps(name, h), n))
  {
    var steps, p, e := ReplaceSteps(name, h), At(w, n), Entry(list, n);
    assert p.live ==> e.Some?;
    OwnInReplace(name, h, n);
    hide RunList, ObserveAll, Own, Entry, RunEntry, RunPresence, ReplaceSteps, DrainSteps, RemovalSteps, AttemptSteps;
    if n == name {
      DrainRemovesLast(name, h);
      if NodeObjectRefused(h) {
        DrainByName(name, h, p, e);
      } else {
        RemovalByName(name, h, p, e);
      }
      hide Tracked, NodeObjectRefused, ListedThroughout, RemovesLast;
      ScriptIsListed(p, e, Own(steps, n));
    } else if n == h.attempt.name && !NodeObjectRefused(h) && h.prepared {
      AttemptRemovesLast(h.attempt);
      AttemptPresence(p, Worker, h.attempt);
      AttemptEntry(Worker, h.attempt);
      hide Tracked, NodeObjectRefused, ListedThroughout, RemovesLast;
      ScriptIsListed(p, e, Own(steps, n));
    } else {
      NothingHappens(p, e);
    }
  }

  lemma ReplaceIsListed(list: seq<NodeStatus>, w: World, name: string, h: Heal, m: nat)
    requires Tracked(list, w) && CleanHeal(h) && m <= |ReplaceSteps(name, h)|
    requires h.attempt.name != name && h.attempt.name != "" && Entry(list, h.attempt.name) == None
    ensures var part := ReplaceSteps(name, h)[..m];
            Listed(RunList(list, part), ObserveAll(w, Effects(part)))
  {
    assert UniqueNames(list);
    hide RunList, ObserveAll, Own, Entry, RunEntry, RunPresence, ReplaceSteps, Names, Tracked;
    var steps := ReplaceSteps(name, h);
    var part := steps[..m];
    forall n | n in ObserveAll(w, Effects(part)).servers ensures n in Names(RunList(list, part)) {
      EntryAfterRun(list, part, n);
      WorldByName(w, part, n);
      OwnPrefix(steps, m, n);
      OwnIsListed(list, w, name, h, n);
      EntryNone(RunList(list, part), n);
    }
  }

  // ---- Every moment of the healing loop -------------------------------------------------------

  ghost predicate ListedIn(st: State, w: World, part: seq<Step>)
    requires Ok(st.mem)
  {
    Listed(Contents(Run(st, part).mem), ObserveAll(w, Effects(part)))
  }

  lemma {:induction false} HealingIsListed(st: State, w: World, ptrs: seq<nat>, hs: seq<Heal>, budget: nat,
                                           doomed: set<string>, m: nat)
    requires Ok(st.mem) && |ptrs| == |hs| && "" in doomed
    requires PointAt(st.mem, ptrs, doomed) && FreshNames(hs, doomed + Names(Contents(st.mem)))
    requires Tracked(Contents(st.mem), w) && forall h | h in hs :: CleanHeal(h)
    requires m <= |HealSteps(st, ptrs, hs, budget)|
    ensures ListedIn(st, w, HealSteps(st, ptrs, hs, budget)[..m])
    decreases |ptrs|
  {
    hide Run, Contents, ReplaceSteps, Names, ObserveAll, Tracked, RunList, HealSteps, ListedIn;
    if ptrs == [] || budget == 0 {
      HealEnds(st, ptrs, hs, budget);
      TrackedIsListed(st, w);
    } else {
      var x, f := st.mem.pinned[ptrs[0]].name, hs[0].attempt.name;
      var steps, b := ReplaceSteps(x, hs[0]), if ReplaceSucceeds(hs[0]) then budget - 1 else budget;
      var st1, w1 := Run(st, steps), ObserveAll(w, Effects(steps));
      EntryNone(Contents(st.mem), f);
      HealUnfolds(st, ptrs, hs, budget);
      var rest := HealSteps(st1, ptrs[1..], hs[1..], b);
      if m <= |steps| {
        assert (steps + rest)[..m] == steps[..m];
        ReplaceIsListed(Contents(st.mem), w, x, hs[0], m);
        ListedByRefinement(st, w, steps[..m]);
      } else {
        ReplaceKeepsTracked(Contents(st.mem), w, x, hs[0]);
        RunRefinesList(st, steps);
        PointersAfterReplace(st, ptrs, hs, doomed);
        assert forall h | h in hs[1..] :: h in hs;
        HealingIsListed(st1, w1, ptrs[1..], hs[1..], b, doomed + {f}, m - |steps|);
        assert (steps + rest)[..m] == steps + rest[..m - |steps|];
        ListedLater(st, w, steps, rest[..m - |steps|]);
      }
    }
  }

  lemma TrackedIsListed(st: State, w: World)
    requires Ok(st.mem) && Tracked(Contents(st.mem), w)
    ensures ListedIn(st, w, [])
  {
    NothingRan(st, w);
    ServersAreListed(Contents(st.mem), w);
  }

  lemma ListedByRefinement(st: State, w: World, part: seq<Step>)
    requires Ok(st.mem) && Listed(RunList(Contents(st.mem), part), ObserveAll(w, Effects(part)))
    ensures ListedIn(st, w, part)
  {
    hide Listed, Run, RunList, ObserveAll;
    RunRefinesList(st, part);
  }

  lemma ListedLater(st: State, w: World, steps: seq<Step>, part: seq<Step>)
    requires Ok(st.mem) && ListedIn(Run(st, steps), ObserveAll(w, Effects(steps)), part)
    ensures ListedIn(st, w, steps + part)
  {
    hide Listed, Run, ObserveAll, Effects;
    RunConcat(st, steps, part);
    EffectsConcat(steps, part);
    ObserveConcat(w, Effects(steps), Effects(part));
  }

  /** The loop never outgrows the array its pointers refer to. */
  lemma {:induction false} HealingStaysAliased(st: State, ptrs: seq<nat>, hs: seq<Heal>, budget: nat,
                                               doomed: set<string>)
    requires Ok(st.mem) && st.mem.aliased && |ptrs| == |hs|
    requires PointAt(st.mem, ptrs, doomed) && FreshNames(hs, doomed + Names(Contents(st.mem)))
    ensures Run(st, HealSteps(st, ptrs, hs, budget)).mem.aliased
    decreases |ptrs|
  {
    hide Run, Contents, ReplaceSteps, Names, HealSteps;
    if ptrs == [] || budget == 0 {
      HealEnds(st, ptrs, hs, budget);
      NothingRan(st, World({}, {}));
    } else {
      var x, f := st.mem.pinned[ptrs[0]].name, hs[0].attempt.name;
      var steps, b := ReplaceSteps(x, hs[0]), if ReplaceSucceeds(hs[0]) then budget - 1 else budget;
      HealUnfolds(st, ptrs, hs, budget);
      ReplacementWrites(st, ptrs[0], hs[0]);
      PointersAfterReplace(st, ptrs, hs, doomed);
      HealingStaysAliased(Run(st, steps), ptrs[1..], hs[1..], b, doomed + {f});
      RunConcat(st, steps, HealSteps(Run(st, steps), ptrs[1..], hs[1..], b));
    }
  }

  lemma {:induction false} AliasedBefore(st: State, steps: seq<Step>, m: nat)
    requires Ok(st.mem) && m <= |steps| && Run(st, steps).mem.aliased
    ensures Run(st, steps[..m]).mem.aliased
  {
    if m == |steps| {
      assert steps[..m] == steps;
    } else {
      var k := |steps| - 1;
      AliasedBefore(st, steps[..k], m);
      assert steps[..k][..m] == steps[..m];
    }
  }

  lemma {:induction false} NamesBound(list: seq<NodeStatus>)
    ensures |Names(list)| <= |list|
  {
    if list != [] {
      var k := |list| - 1;
      NamesBound(list[..k]);
      assert list == list[..k] + [list[k]];
      assert Names(list) == Names(list[..k]) + {list[k].name};
    }
  }

  lemma HealingIsBounded(w: World, i: PassInput, cap: nat, m: nat)
    requires Sound(w, i) && Covered(w) && m <= |HealPart(i, cap)|
    ensures |ObserveAll(w, Effects(HealPart(i, cap)[..m])).servers| <= |i.kube|
  {
    var list, st, ptrs, doomed := ObservedAll(i.kube), Rebuilt(i), Pointers(i), Names(ObservedAll(i.kube)) + {""};
    var part := HealPart(i, cap)[..m];
    assert Contents(st.mem) == list;
    PointersAreExact(list, i.threshold, i.now);
    assert PointAt(st.mem, ptrs, doomed) by {
      forall k | 0 <= k < |ptrs| ensures list[ptrs[k]].name in Names(list) {}
    }
    forall n | n in w.servers ensures Entry(list, n).Some? { EntryNone(list, n); }
    hide HealSteps, Names, ObserveAll, Run, RunList, PastThresholdPointers, Entry, UniqueNames, Consistent;
    assert doomed + Names(Contents(st.mem)) == doomed;
    HealingIsListed(st, w, ptrs, i.hs, cap, doomed, m);
    HealingStaysAliased(st, ptrs, i.hs, cap, doomed);
    AliasedBefore(st, HealPart(i, cap), m);
    PinnedKeepsLength(st, part);
    NamesBound(Contents(Run(st, part).mem));
    SubsetSize(ObserveAll(w, Effects(part)).servers, Names(Contents(Run(st, part).mem)));
  }

  // ---- Every moment of a pass --------------------------------------------------------------------

  lemma {:induction false} OnlyShrinks(w: World, steps: seq<Step>)
    requires forall s | s in steps :: s.Do? && !s.effect.ServerCreated?
    ensures ObserveAll(w, Effects(steps)).servers <= w.servers
  {
    hide ObserveAll;
    if steps == [] {
      NothingObserved(w);
    } else {
      var k := |steps| - 1;
      OnlyShrinks(w, steps[..k]);
      assert steps[k] in steps;
      EffectsConcat(steps[..k], [steps[k]]);
      assert steps == steps[..k] + [steps[k]] && [steps[k]][..0] == [];
      assert Effects([steps[k]]) == [steps[k].effect];
      ObserveConcat(w, Effects(steps[..k]), [steps[k].effect]);
      ObserveOne(ObserveAll(w, Effects(steps[..k])), steps[k].effect);
    }
  }

  lemma {:induction false} DownCreatesNothing(names: seq<string>, ds: seq<Decommission>, cap: nat)
    requires |names| == |ds|
    ensures forall s | s in DownSteps(names, ds, cap) :: s.Do? && !s.effect.ServerCreated?
    decreases |names|
  {
    if names != [] && cap > 0 {
      var c := if Decommissioned(names[0], ds[0]) then cap - 1 else cap;
      DownUnfolds(names, ds, cap);
      DownCreatesNothing(names[1..], ds[1..], c);
    }
  }

  lemma ScalingIsBounded(w: World, i: PassInput, desired: nat, cap: nat, m: nat)
    requires Sound(w, i) && Covered(w) && m <= |ScalePart(i, desired, cap)|
    requires |WorldAfterHealing(w, i, cap).servers| <= |i.kube|
    ensures |ObserveAll(WorldAfterHealing(w, i, cap), Effects(ScalePart(i, desired, cap)[..m])).servers|
            <= Max(|i.kube|, desired)
  {
    hide HealPart, ObserveAll, Names, ListAfterHealing, WorldAfterHealing, Tracked, Consistent, ScaleUpSteps, DownSteps;
    var list, w1 := ListAfterHealing(i, cap), WorldAfterHealing(w, i, cap);
    if |list| < desired {
      hide ScaleSteps;
      PassNeverOvershoots(w, i, desired, cap, m);
    } else {
      var steps := ScalePart(i, desired, cap);
      var names := SelectedNames(list, |list| - desired);
      DownCreatesNothing(names, Removals(names, i.ans), cap);
      assert forall s | s in steps[..m] :: s in steps;
      OnlyShrinks(w1, steps[..m]);
      SubsetSize(ObserveAll(w1, Effects(steps[..m])).servers, w1.servers);
    }
  }

  function Max(a: int, b: int): int {
    if a > b then a else b
  }

  ghost function PassSteps(i: PassInput, desired: nat, cap: nat): seq<Step>
    requires Answered(i)
  {
    HealPart(i, cap) + ScalePart(i, desired, cap)
  }

  lemma ObserveLater(w: World, a: seq<Step>, b: seq<Step>)
    ensures ObserveAll(w, Effects(a + b)) == ObserveAll(ObserveAll(w, Effects(a)), Effects(b))
  {
    hide *;
    EffectsConcat(a, b);
    ObserveConcat(w, Effects(a), Effects(b));
  }

  lemma KubeIsRegistered(w: World, i: PassInput)
    requires Sound(w, i)
    ensures |i.kube| == |w.registered| && Answered(i)
  {
    hide Answered, CleanHeal, CleanAnswers, FreshNames;
    NamesCount(ObservedAll(i.kube));
  }

  lemma LaterMoment(w: World, i: PassInput, desired: nat, cap: nat, m: nat)
    requires Sound(w, i) && Covered(w) && m <= |ScalePart(i, desired, cap)|
    ensures |ObserveAll(w, Effects(HealPart(i, cap) + ScalePart(i, desired, cap)[..m])).servers|
            <= Max(|i.kube|, desired)
  {
    var healing := HealPart(i, cap);
    assert WorldAfterHealing(w, i, cap) == ObserveAll(w, Effects(healing));
    hide *;
    assert healing[..|healing|] == healing;
    HealingIsBounded(w, i, cap, |healing|);
    ScalingIsBounded(w, i, desired, cap, m);
    ObserveLater(w, healing, ScalePart(i, desired, cap)[..m]);
  }

  /** At every moment of a pass, healing and scaling, there run at most as many workers
      as nodes were registered when it began, or as are desired. */
  lemma PassIsBounded(w: World, i: PassInput, desired: nat, cap: nat, m: nat)
    requires Sound(w, i) && Covered(w) && m <= |PassSteps(i, desired, cap)|
    ensures |ObserveAll(w, Effects(PassSteps(i, desired, cap)[..m])).servers| <= Max(|w.registered|, desired)
  {
    hide HealPart, ScalePart, ObserveAll, Effects, Sound, Covered, Answered, UniqueNames;
    KubeIsRegistered(w, i);
    var healing, scaling := HealPart(i, cap), ScalePart(i, desired, cap);
    if m <= |healing| {
      assert (healing + scaling)[..m] == healing[..m];
      HealingIsBounded(w, i, cap, m);
    } else {
      assert (healing + scaling)[..m] == healing + scaling[..m - |healing|];
      LaterMoment(w, i, desired, cap, m - |healing|);
    }
  }

  /** So over any run with a fixed desired count. */
  lemma RunIsBounded(ws: seq<World>, turns: seq<Turn>, desired: nat, cap: nat, k: nat, m: nat)
    requires Turns(ws, turns, desired, cap) && Covered(ws[0]) && k < |turns| && turns[k].Pass?
    requires Answered(turns[k].input) && m <= |PassSteps(turns[k].input, desired, cap)|
    ensures |ObserveAll(ws[k], Effects(PassSteps(turns[k].input, desired, cap)[..m])).servers|
            <= Max(|ws[k].registered|, desired)
  {
    assert TurnFrom(ws[k], turns[k], ws[k + 1], desired, cap);
    hide PassSteps, Sound, WorldAfterPass, ObserveAll, Answered;
    WorkersNeverLost(ws, turns, desired, cap, k);
    PassIsBounded(ws[k], turns[k].input, desired, cap, m);
  }

  // ---- A shortage is filled ----------------------------------------------------------------------

  // The prerequisites are there and every worker asked for comes up.
  ghost predicate Supplies(ans: Answers, n: nat) {
    ans.prepared && forall a | a in ans.supply(n) :: Succeeds(a)
  }

  // The world grew by n servers, each of them registered.
  ghost predicate Grew(w: World, after: World, n: nat) {
    && w.servers <= after.servers && |after.servers| == |w.servers| + n
    && w.registered <= after.registered && |after.registered| == |w.registered| + n
    && after.servers - w.servers == after.registered - w.registered
  }

  lemma ScaleUpFills(w: World, attempts: seq<Attempt>, s1: seq<nat>, s2: seq<nat>)
    requires Scheduled(attempts, s1, s2) && Distinct(AttemptNames(attempts)) && AllClean(attempts)
    requires w.servers <= w.registered && forall a | a in attempts :: Succeeds(a)
    requires forall m | m in AttemptNames(attempts) :: m !in w.registered
    ensures Grew(w, ObserveAll(w, Effects(ScaleUpSteps(attempts, s1, s2))), |attempts|)
  {
    hide ObserveAll, ScaleUpSteps, Scheduled, Clean, Distinct, Succeeds;
    ScaleUpKeepsServersRegistered(w, attempts, s1, s2);
    AllAreKept(attempts);
    DistinctCount(AttemptNames(attempts));
    hide AllClean, AttemptNames;
    var added := set m | m in AttemptNames(attempts);
    assert added !! w.servers && added !! w.registered && |added| == |attempts|;
  }

  /** With fewer workers listed than desired, nobody in early provisioning and every call
      succeeding, scaling adds exactly the missing number of servers, each registered. */
  lemma ScalingFills(list: seq<NodeStatus>, w: World, desired: nat, cap: nat, ans: Answers)
    requires Tracked(list, w) && w.registered <= Names(list) && CleanAnswers(ans, Names(list) + {""})
    requires CountEarly(list) == 0 && |list| < desired && Supplies(ans, desired - |list|)
    ensures Grew(w, ObserveAll(w, Effects(ScaleSteps(list, desired, cap, ans))), desired - |list|)
  {
    var n := desired - |list|;
    var attempts := ans.supply(n);
    hide ObserveAll, ScaleUpSteps, Scheduled, Names, CountEarly, Clean, Distinct, Entry, UniqueNames, Grew, Succeeds;
    assert forall m | m in AttemptNames(attempts) :: m !in Names(list) + {""};
    ScaleUpFills(w, attempts, ans.first(n), ans.second(n));
  }

  lemma AllAreKept(attempts: seq<Attempt>)
    requires AllClean(attempts) && forall a | a in attempts :: Succeeds(a)
    ensures (set a | a in attempts && Kept(Worker, a) :: a.name) == set m | m in AttemptNames(attempts)
    ensures (set a | a in attempts && Succeeds(a) :: a.name) == set m | m in AttemptNames(attempts)
  {
    forall a | a in attempts ensures Kept(Worker, a) && a.name in AttemptNames(attempts) {
      var i :| 0 <= i < |attempts| && attempts[i] == a;
      assert AttemptNames(attempts)[i] == a.name;
    }
    forall m | m in AttemptNames(attempts) ensures exists a | a in attempts :: Kept(Worker, a) && a.name == m {
      var i :| 0 <= i < |attempts| && AttemptNames(attempts)[i] == m;
      assert attempts[i] in attempts;
    }
  }

  // ---- An excess disappears ---------------------------------------------------------------------

  // Nobody is past the threshold, and every removal completes.
  ghost predicate Quiet(i: PassInput) {
    && Pointers(i) == []
    && forall name: string ::
         var d := i.ans.removal(name);
         d.serverDeleteOk && d.nodeFound && d.nodeDeleteOk
  }

  lemma ExcessDeleted(list: seq<NodeStatus>, desired: nat, cap: nat, ans: Answers)
    requires UniqueNames(list) && desired <= |list|
    requires forall name: string :: ans.removal(name).serverDeleteOk
    ensures var names := SelectedNames(list, |list| - desired);
            var gone := Deleted(names, Removals(names, ans), cap);
            gone <= Names(list) && |gone| == Min(cap, |list| - desired)
  {
    var names := SelectedNames(list, |list| - desired);
    var ds := Removals(names, ans);
    SelectedAreDistinct(list, |list| - desired);
    hide SelectedNames, Names, Deleted, Distinct, UniqueNames;
    AllDropped(names, ds, cap);
  }

  lemma QuietPass(w: World, i: PassInput, desired: nat, cap: nat)
    requires Sound(w, i) && Covered(w) && Quiet(i) && desired <= |w.registered|
    ensures |WorldAfterPass(w, i, desired, cap).registered| == Max(desired, |w.registered| - cap)
  {
    var list := ObservedAll(i.kube);
    KubeIsRegistered(w, i);
    NothingHealed(w, i, cap);
    GuardNeverFiresAfterRebuild(i.kube);
    ExcessDeleted(list, desired, cap, i.ans);
    assert UniqueNames(list) && Names(list) == w.registered;
    hide *;
    QuietScaling(w, i, list, desired, cap);
  }

  lemma QuietScaling(w: World, i: PassInput, list: seq<NodeStatus>, desired: nat, cap: nat)
    requires Answered(i) && Covered(w) && Quiet(i) && |list| == |w.registered| >= desired
    requires ListAfterHealing(i, cap) == list && WorldAfterHealing(w, i, cap) == w && CountEarly(list) == 0
    requires var names := SelectedNames(list, |list| - desired);
             var gone := Deleted(names, Removals(names, i.ans), cap);
             gone <= w.registered && |gone| == Min(cap, |list| - desired)
    ensures |WorldAfterPass(w, i, desired, cap).registered| == Max(desired, |w.registered| - cap)
  {
    hide ListAfterHealing, WorldAfterHealing, SelectedNames, CountEarly, DownSteps, ObserveAll, Answered, Deleted;
    var names := SelectedNames(list, |list| - desired);
    var ds := Removals(names, i.ans);
    DownUnregisters(w, names, ds, cap);
  }

  lemma NothingHealed(w: World, i: PassInput, cap: nat)
    requires Answered(i) && Pointers(i) == []
    ensures ListAfterHealing(i, cap) == ObservedAll(i.kube) && WorldAfterHealing(w, i, cap) == w
  {
    hide PastThresholdPointers, Consistent;
    HealEnds(Rebuilt(i), Pointers(i), i.hs, cap);
    NothingRan(Rebuilt(i), w);
  }

  lemma ShortPass(w: World, i: PassInput, desired: nat, cap: nat)
    requires Sound(w, i) && Covered(w) && Pointers(i) == [] && |w.registered| < desired
    requires Supplies(i.ans, desired - |w.registered|)
    ensures Grew(w, WorldAfterPass(w, i, desired, cap), desired - |w.registered|)
  {
    var list := ObservedAll(i.kube);
    KubeIsRegistered(w, i);
    NothingHealed(w, i, cap);
    GuardNeverFiresAfterRebuild(i.kube);
    HealingLeavesTracked(w, i, cap);
    FewerUsed(w, i, cap);
    assert Names(list) == w.registered && WorldAfterHealing(w, i, cap) == w && ListAfterHealing(i, cap) == list;
    hide ObserveAll, Names, ScaleSteps, HealPart, CountEarly, Tracked, CleanAnswers, Supplies, ListAfterHealing,
      WorldAfterHealing, CreatedNames, FreshNames, Grew, Sound, Pointers;
    ScalingFills(list, w, desired, cap, i.ans);
  }

  // Nobody is past the threshold, removals complete, and every worker asked for comes up.
  ghost predicate Undisturbed(i: PassInput, desired: nat) {
    Quiet(i) && (|i.kube| < desired ==> Supplies(i.ans, desired - |i.kube|))
  }

  // How many workers there are after k undisturbed passes, starting from n.
  function After(n: nat, desired: nat, cap: nat, k: nat): int {
    if k == 0 then n else if n < desired then desired else Max(desired, n - k * cap)
  }

  /** Over undisturbed passes the number of registered workers reaches the desired count: a
      shortage is filled by the first pass, an excess shrinks by the cap with each. */
  lemma {:induction false} WorkersConverge(ws: seq<World>, turns: seq<Turn>, desired: nat, cap: nat, k: nat)
    requires Turns(ws, turns, desired, cap) && Covered(ws[0]) && k < |ws|
    requires forall t | t in turns :: t.Pass? && Undisturbed(t.input, desired)
    ensures |ws[k].registered| == After(|ws[0].registered|, desired, cap, k)
  {
    hide Sound, WorldAfterPass, Quiet, Supplies;
    if k > 0 {
      WorkersConverge(ws, turns, desired, cap, k - 1);
      WorkersNeverLost(ws, turns, desired, cap, k - 1);
      assert turns[k - 1] in turns && TurnFrom(ws[k - 1], turns[k - 1], ws[k], desired, cap);
      OnePass(ws[k - 1], turns[k - 1].input, desired, cap);
      assert k * cap == (k - 1) * cap + cap;
    }
  }

  lemma OnePass(w: World, i: PassInput, desired: nat, cap: nat)
    requires Sound(w, i) && Covered(w) && Undisturbed(i, desired)
    ensures |WorldAfterPass(w, i, desired, cap).registered| ==
            if |w.registered| < desired then desired else Max(desired, |w.registered| - cap)
  {
    hide Sound, WorldAfterPass, Supplies, Covered, Grew, Pointers;
    KubeIsRegistered(w, i);
    if |w.registered| < desired {
      FillingPass(w, i, desired, cap);
    } else {
      QuietPass(w, i, desired, cap);
    }
  }

  lemma FillingPass(w: World, i: PassInput, desired: nat, cap: nat)
    requires Sound(w, i) && Covered(w) && Pointers(i) == [] && |w.registered| < desired
    requires Supplies(i.ans, desired - |w.registered|)
    ensures |WorldAfterPass(w, i, desired, cap).registered| == desired
  {
    hide Sound, WorldAfterPass, Supplies, Covered, Pointers;
    ShortPass(w, i, desired, cap);
  }

  /** Over undisturbed passes an excess shrinks by the cap each time and ends exactly at
      the desired count. */
  lemma {:induction false} ExcessDisappears(ws: seq<World>, turns: seq<Turn>, desired: nat, cap: nat, k: nat)
    requires Turns(ws, turns, desired, cap) && Covered(ws[0]) && k < |ws| && desired <= |ws[0].registered|
    requires forall t | t in turns :: t.Pass? && Quiet(t.input)
    ensures |ws[k].registered| == Max(desired, |ws[0].registered| - k * cap)
  {
    hide Sound, WorldAfterPass, Quiet;
    if k > 0 {
      ExcessDisappears(ws, turns, desired, cap, k - 1);
      WorkersNeverLost(ws, turns, desired, cap, k - 1);
      assert turns[k - 1] in turns && TurnFrom(ws[k - 1], turns[k - 1], ws[k], desired, cap);
      QuietPass(ws[k - 1], turns[k - 1].input, desired, cap);
      assert k * cap == (k - 1) * cap + cap;
    }
  }
}
