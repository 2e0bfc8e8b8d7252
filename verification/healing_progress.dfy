/** That healing heals: workers are drained before anything of theirs is deleted, and
    replacements that succeed take their places, as many as the cap allows. */
module HealingProgress {
  import opened Sequences
  import opened Nodes
  import opened Steps
  import opened Provisioning
  import opened Interleaving
  import opened AttemptResults
  import opened Fleet
  import opened Health
  import opened Healing
  import opened DrainedReplacements
  import opened WorkerScaleDown
  import opened WorkerReconcile
  import opened WorkerPass

  // ---- Drained before deleted -------------------------------------------------------------

  // The step deletes nothing of a node that was not drained before, unless it is one of
  // those that failed while they were created.
  predicate Permitted(s: Step, before: seq<Step>, failed: set<string>) {
    match s
    case Do(NodeObjectDeleted(n)) => Do(Drained(n)) in before
    case Do(ServerDeleted(n)) => n in failed || Do(Drained(n)) in before
    case Do(ServerDeleteFailed(n)) => n in failed || Do(Drained(n)) in before
    case _ => true
  }

  ghost predicate DrainedFirst(steps: seq<Step>, failed: set<string>) {
    forall i | 0 <= i < |steps| :: Permitted(steps[i], steps[..i], failed)
  }

  lemma DrainedFirstConcat(a: seq<Step>, b: seq<Step>, failed: set<string>)
    requires DrainedFirst(a, failed) && DrainedFirst(b, failed)
    ensures DrainedFirst(a + b, failed)
  {
    var all := a + b;
    forall i | 0 <= i < |all| ensures Permitted(all[i], all[..i], failed) {
      if i < |a| {
        assert all[..i] == a[..i];
      } else {
        assert all[..i] == a + b[..i - |a|];
        assert Permitted(b[i - |a|], b[..i - |a|], failed);
      }
    }
  }

  lemma ReplaceDrainsFirst(x: string, h: Heal, failed: set<string>)
    requires h.attempt.name in failed
    ensures DrainedFirst(ReplaceSteps(x, h), failed)
  {
    var d, a := DrainSteps(x, h), AttemptSteps(Worker, h.attempt);
    assert DrainedFirst(d, failed) by {
      forall i | 0 <= i < |d| ensures Permitted(d[i], d[..i], failed) {
        if i > 1 { assert d[..i][1] == Do(Drained(x)); }
      }
    }
    AttemptDeletesItself(h.attempt, failed);
    hide DrainSteps, AttemptSteps, DrainedFirst;
    assert DrainedFirst([Remove(x)], failed) by { RemoveIsPermitted(x, failed); }
    DrainedFirstConcat(d, [Remove(x)], failed);
    DrainedFirstConcat(RemovalSteps(x, h), a, failed);
  }

  lemma RemoveIsPermitted(x: string, failed: set<string>)
    ensures DrainedFirst([Remove(x)], failed)
  {
  }

  lemma AttemptDeletesItself(a: Attempt, failed: set<string>)
    requires a.name in failed
    ensures DrainedFirst(AttemptSteps(Worker, a), failed)
  {
    var steps := AttemptSteps(Worker, a);
    AttemptIsNamed(Worker, a);
    hide AttemptSteps;
    forall i | 0 <= i < |steps| ensures Permitted(steps[i], steps[..i], failed) {
      assert steps[i] in steps;
      if steps[i].Do? && steps[i].effect.NodeObjectDeleted? { AttemptHarmsNobody(a, steps[i].effect.name); }
    }
  }

  /** In the healing loop no node object is deleted, and no server but that of a failed
      replacement, before its node was drained. */
  lemma {:induction false} HealingDrainsFirst(st: State, ptrs: seq<nat>, hs: seq<Heal>, budget: nat,
                                              failed: set<string>)
    requires Ok(st.mem) && |ptrs| == |hs| && CreatedNames(hs) <= failed
    requires forall i | 0 <= i < |ptrs| :: ptrs[i] < |st.mem.pinned|
    ensures DrainedFirst(HealSteps(st, ptrs, hs, budget), failed)
    decreases |ptrs|
  {
    hide Run, ReplaceSteps, HealSteps, DrainedFirst;
    if ptrs == [] || budget == 0 {
      HealEnds(st, ptrs, hs, budget);
      NothingToDrain(failed);
    } else {
      var x := st.mem.pinned[ptrs[0]].name;
      var st1, b := Run(st, ReplaceSteps(x, hs[0])), if ReplaceSucceeds(hs[0]) then budget - 1 else budget;
      HealUnfolds(st, ptrs, hs, budget);
      assert hs[0] in hs && forall h | h in hs[1..] :: h in hs;
      ReplaceDrainsFirst(x, hs[0], failed);
      HealingDrainsFirst(st1, ptrs[1..], hs[1..], b, failed);
      DrainedFirstConcat(ReplaceSteps(x, hs[0]), HealSteps(st1, ptrs[1..], hs[1..], b), failed);
    }
  }

  lemma NothingToDrain(failed: set<string>)
    ensures DrainedFirst([], failed)
  {
  }

  /** Scaling down drains every worker before it deletes anything of it. */
  lemma {:induction false} DownDrainsFirst(names: seq<string>, ds: seq<Decommission>, cap: nat)
    requires |names| == |ds|
    ensures DrainedFirst(DownSteps(names, ds, cap), {})
    decreases |names|
  {
    if names == [] || cap == 0 {
      NothingToDrain({});
    } else {
      var c := if Decommissioned(names[0], ds[0]) then cap - 1 else cap;
      var one := DecommissionSteps(names[0], ds[0]);
      DownUnfolds(names, ds, cap);
      assert DrainedFirst(one, {}) by {
        forall i | 0 <= i < |one| ensures Permitted(one[i], one[..i], {}) {
          if i > 0 { assert one[..i][0] == Do(Drained(names[0])); }
        }
      }
      hide DrainedFirst, DecommissionSteps, DownSteps;
      DownDrainsFirst(names[1..], ds[1..], c);
      DrainedFirstConcat(one, DownSteps(names[1..], ds[1..], c), {});
    }
  }

  // ---- Replacements take their places -------------------------------------------------------

  // Everything a replacement asks for succeeds.
  ghost predicate Replaces(h: Heal) {
    CleanHeal(h) && h.nodeFound && h.nodeDeleteOk && h.prepared && Succeeds(h.attempt)
  }

  function Swapped(w: World, gone: string, added: string): World {
    World(w.servers - {gone} + {added}, w.registered - {gone} + {added})
  }

  lemma RemovedPresence(x: string, h: Heal, p: Presence)
    requires x != "" && h.serverDeleteOk && h.nodeFound && h.nodeDeleteOk
    ensures RunPresence(p, RemovalSteps(x, h)) == Presence(false, false)
  {
    var s1, s2 := Update(PhaseUpdate(x, Draining), h.at), Do(Drained(x));
    var s3 := Update(PhaseUpdate(x, DeletingServer), h.at);
    var d, s, r := Do(NodeObjectDeleted(x)), DeleteEffect(x, true), Remove(x);
    hide RunPresence;
    PresenceThree(p, s1, s2, s3);
    PresenceThree(p, d, s, r);
    RunPresenceConcat(p, [s1, s2, s3], [d, s, r]);
    assert RemovalSteps(x, h) == [s1, s2, s3] + [d, s, r];
  }

  /** A replacement that succeeds puts the fresh server, registered, in the place of the old one. */
  lemma ReplaceSwaps(w: World, x: string, h: Heal)
    requires Replaces(h) && x != "" && h.attempt.name != x && h.attempt.name !in w.servers
    ensures ObserveAll(w, Effects(ReplaceSteps(x, h))) == Swapped(w, x, h.attempt.name)
  {
    hide ObserveAll, Own, RunPresence, ReplaceSteps, RemovalSteps, DrainSteps, AttemptSteps;
    var steps, f := ReplaceSteps(x, h), h.attempt.name;
    var after, swapped := ObserveAll(w, Effects(steps)), Swapped(w, x, f);
    forall n
      ensures n in after.servers <==> n in swapped.servers
      ensures n in after.registered <==> n in swapped.registered
    {
      WorldByName(w, steps, n);
      OwnInReplace(x, h, n);
      if n == x {
        RemovedPresence(x, h, At(w, n));
      } else if n == f {
        AttemptPresence(At(w, n), Worker, h.attempt);
      } else {
        NothingHappened(w, n);
      }
    }
  }

  function SwapAll(w: World, gone: seq<string>, hs: seq<Heal>): World
    requires |gone| <= |hs|
    decreases |gone|
  {
    if gone == [] then w else SwapAll(Swapped(w, gone[0], hs[0].attempt.name), gone[1..], hs[1..])
  }

  lemma SwapOne(w: World, x: string, rest: seq<string>, hs: seq<Heal>)
    requires |hs| > |rest|
    ensures SwapAll(w, [x] + rest, hs) == SwapAll(Swapped(w, x, hs[0].attempt.name), rest, hs[1..])
  {
    assert ([x] + rest)[1..] == rest;
  }

  /** With every call succeeding the loop replaces, turn by turn, the node that turn meets,
      and takes as many turns as the cap allows. */
  lemma {:induction false} HealingSwaps(st: State, w: World, ptrs: seq<nat>, hs: seq<Heal>, budget: nat,
                                        doomed: set<string>)
    requires Ok(st.mem) && |ptrs| == |hs| && "" !in doomed
    requires PointAt(st.mem, ptrs, doomed) && FreshNames(hs, doomed + Names(Contents(st.mem)) + {""})
    requires Tracked(Contents(st.mem), w) && forall h | h in hs :: Replaces(h)
    ensures var vs := Victims(st, ptrs, hs, budget);
            && |vs| == Min(budget, |ptrs|)
            && ObserveAll(w, Effects(HealSteps(st, ptrs, hs, budget))) == SwapAll(w, vs, hs)
    decreases |ptrs|
  {
    hide Run, Contents, ReplaceSteps, Names, ObserveAll, RunList, HealSteps, Victims, Landings, Landing, SwapAll;
    NoTurns(st, ptrs, hs, budget);
    if ptrs == [] || budget == 0 {
      HealEnds(st, ptrs, hs, budget);
      NothingRan(st, w);
      assert SwapAll(w, [], hs) == w by { NothingSwapped(w, hs); }
    } else {
      var x, f := st.mem.pinned[ptrs[0]].name, hs[0].attempt.name;
      var steps := ReplaceSteps(x, hs[0]);
      var st1, w1 := Run(st, steps), ObserveAll(w, Effects(steps));
      assert hs[0] in hs && forall h | h in hs[1..] :: h in hs;
      EntryNone(Contents(st.mem), f);
      ReplaceSwaps(w, x, hs[0]);
      ReplaceKeepsTracked(Contents(st.mem), w, x, hs[0]);
      RunRefinesList(st, steps);
      PointersAfterReplace(st, ptrs, hs, doomed);
      HealUnfolds(st, ptrs, hs, budget);
      VictimsUnfold(st, ptrs, hs, budget);
      hide Tracked, Swapped, PointAt;
      var rest := HealSteps(st1, ptrs[1..], hs[1..], budget - 1);
      StaysFresh(hs, doomed, Names(Contents(st.mem)), Names(Contents(st1.mem)));
      HealingSwaps(st1, w1, ptrs[1..], hs[1..], budget - 1, doomed + {f});
      SwapOne(w, x, Victims(st1, ptrs[1..], hs[1..], budget - 1), hs);
      EffectsConcat(steps, rest);
      ObserveConcat(w, Effects(steps), Effects(rest));
    }
  }

  lemma StaysFresh(hs: seq<Heal>, doomed: set<string>, before: set<string>, after: set<string>)
    requires hs != [] && FreshNames(hs, doomed + before + {""})
    requires FreshNames(hs[1..], doomed + {hs[0].attempt.name} + after)
    ensures hs[0].attempt.name != "" && FreshNames(hs[1..], doomed + {hs[0].attempt.name} + after + {""})
  {
    assert forall i | 0 <= i < |hs| - 1 :: hs[1..][i] == hs[i + 1];
  }

  lemma NothingSwapped(w: World, hs: seq<Heal>)
    ensures SwapAll(w, [], hs) == w
  {
  }

  // ---- A whole healing phase --------------------------------------------------------------------

  function Elements(names: seq<string>): set<string> {
    set n | n in names
  }

  function Fresh(hs: seq<Heal>): (names: seq<string>)
    ensures |names| == |hs|
  {
    seq(|hs|, i requires 0 <= i < |hs| => hs[i].attempt.name)
  }

  lemma {:induction false} SwapAllIs(w: World, gone: seq<string>, hs: seq<Heal>)
    requires |gone| <= |hs| && forall i, n | 0 <= i < |hs| && n in gone :: hs[i].attempt.name != n
    ensures var added := Elements(Fresh(hs[..|gone|]));
            SwapAll(w, gone, hs) ==
            World(w.servers - Elements(gone) + added, w.registered - Elements(gone) + added)
    decreases |gone|
  {
    if gone != [] {
      var x, f, rest := gone[0], hs[0].attempt.name, gone[1..];
      assert forall i | 0 <= i < |hs| - 1 :: hs[1..][i] == hs[i + 1];
      assert forall n | n in rest :: n in gone;
      assert hs[0].attempt.name == f && forall n | n in rest :: f != n;
      SwapAllIs(Swapped(w, x, f), rest, hs[1..]);
      assert gone == [x] + rest;
      assert Elements(gone) == {x} + Elements(rest);
      var all, tail := Fresh(hs[..|gone|]), Fresh(hs[1..][..|rest|]);
      assert all == [f] + tail;
      assert Elements(all) == {f} + Elements(tail);
      assert f !in Elements(rest);
      hide SwapAll, Elements, Fresh;
      assert SwapAll(w, gone, hs) == SwapAll(Swapped(w, x, f), rest, hs[1..]) by { SwapOne(w, x, rest, hs); }
    }
  }

  // The names of the workers past the threshold, in list order, as far as the cap goes.
  ghost function Sick(i: PassInput, cap: nat): (names: seq<string>)
    requires Answered(i)
    ensures |names| == Min(cap, |Pointers(i)|)
  {
    seq(Min(cap, |Pointers(i)|), j requires 0 <= j < Min(cap, |Pointers(i)|) => i.kube[Pointers(i)[j]].name)
  }

  lemma VictimsAreSick(i: PassInput, cap: nat, doomed: set<string>)
    requires Answered(i) && Roomy(Pointers(i), |i.kube|)
    requires PointAt(Rebuilt(i).mem, Pointers(i), doomed)
    requires FreshNames(i.hs, doomed + Names(Contents(Rebuilt(i).mem)))
    requires |Victims(Rebuilt(i), Pointers(i), i.hs, cap)| == Min(cap, |Pointers(i)|)
    ensures Victims(Rebuilt(i), Pointers(i), i.hs, cap) == Sick(i, cap)
  {
    var vs, ptrs := Victims(Rebuilt(i), Pointers(i), i.hs, cap), Pointers(i);
    hide Victims, Pointers, FreshNames, Contents, Names;
    forall j | 0 <= j < |vs| ensures vs[j] == Sick(i, cap)[j] {
      RoomyIsSpared(Rebuilt(i), ptrs, i.hs, cap, doomed, j);
    }
  }

  /** With room in the list and every call succeeding, healing puts a fresh, registered
      server in the place of each worker past the threshold, the first ones up to the cap. */
  lemma HealingReplaces(w: World, i: PassInput, cap: nat)
    requires Sound(w, i) && Covered(w) && "" !in w.registered
    requires Roomy(Pointers(i), |i.kube|) && forall h | h in i.hs :: Replaces(h)
    ensures var gone, added := Elements(Sick(i, cap)), Elements(Fresh(i.hs[..|Sick(i, cap)|]));
            && WorldAfterHealing(w, i, cap) == World(w.servers - gone + added, w.registered - gone + added)
            && gone <= w.registered && added !! w.registered
  {
    var st, ptrs, doomed := Rebuilt(i), Pointers(i), Names(ObservedAll(i.kube));
    PassStarts(w, i);
    SickAreListed(i, cap);
    hide HealSteps, ObserveAll, Run, Victims, PointAt, Sound, Tracked, Covered, Pointers, Rebuilt, Names, Contents;
    HealingSwaps(st, w, ptrs, i.hs, cap, doomed);
    VictimsAreSick(i, cap, doomed);
    var gone := Sick(i, cap);
    hide Sick, Elements, Fresh;
    assert doomed == w.registered;
    SwapAllIs(w, gone, i.hs);
    GoneAndAdded(w, gone, i.hs);
  }

  lemma GoneAndAdded(w: World, gone: seq<string>, hs: seq<Heal>)
    requires |gone| <= |hs| && (forall n | n in gone :: n in w.registered)
    requires forall i | 0 <= i < |hs| :: hs[i].attempt.name !in w.registered
    ensures Elements(gone) <= w.registered && Elements(Fresh(hs[..|gone|])) !! w.registered
  {
  }

  // What healing starts from: pointers into the list, fresh names, every server listed.
  lemma PassStarts(w: World, i: PassInput)
    requires Sound(w, i) && Covered(w) && "" !in w.registered
    ensures var st, doomed := Rebuilt(i), Names(ObservedAll(i.kube));
            && doomed == w.registered && Answered(i)
            && Contents(st.mem) == ObservedAll(i.kube) && st.mem.aliased
            && PointAt(st.mem, Pointers(i), doomed) && Tracked(Contents(st.mem), w)
            && FreshNames(i.hs, doomed + Names(Contents(st.mem)) + {""})
            && FreshNames(i.hs, doomed + Names(Contents(st.mem)))
            && forall j | 0 <= j < |i.hs| :: i.hs[j].attempt.name !in doomed
  {
    var list, st, doomed := ObservedAll(i.kube), Rebuilt(i), Names(ObservedAll(i.kube));
    assert Contents(st.mem) == list;
    PointersAreExact(list, i.threshold, i.now);
    forall k | 0 <= k < |Pointers(i)| ensures list[Pointers(i)[k]].name in Names(list) {}
    forall n | n in w.servers ensures Entry(list, n).Some? { EntryNone(list, n); }
    hide Names, PastThresholdPointers, Entry, UniqueNames, Consistent, CleanHeal, CleanAnswers;
    assert doomed + doomed == doomed;
  }

  lemma SickAreListed(i: PassInput, cap: nat)
    requires Answered(i)
    ensures forall n | n in Sick(i, cap) :: n in Names(ObservedAll(i.kube))
  {
    hide Pointers;
    forall n | n in Sick(i, cap) ensures n in Names(ObservedAll(i.kube)) {
      var j :| 0 <= j < |Sick(i, cap)| && Sick(i, cap)[j] == n;
      assert ObservedAll(i.kube)[Pointers(i)[j]].name == n;
    }
  }
}
