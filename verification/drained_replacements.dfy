/** When healing drains a node it has just created: slot by slot, and for which lists
    at all. */
module DrainedReplacements {
  import opened Sequences
  import opened Nodes
  import opened Steps
  import opened Provisioning
  import opened Interleaving
  import opened Healing

  // ---- What a replacement writes beyond its pointer ----------------------------------

  // Every slot from `from` on keeps its name, except slot `but`.
  ghost predicate KeepsNames(a: Mem, b: Mem, from: nat, but: int) {
    && a.aliased && b.aliased && |b.slots| == |a.slots|
    && forall j | from <= j < |a.slots| && j != but :: b.slots[j].name == a.slots[j].name
  }

  /** The first update of a pointed worker finds it listed, or puts it into a slot at or
      before the pointer. */
  lemma FirstUpdate(st: State, p: nat, u: NodeUpdate, at: nat)
    requires Ok(st.mem) && st.mem.aliased && p < |st.mem.slots| && u.name == st.mem.slots[p].name
    ensures var m := Apply(st, Update(u, at)).mem;
            && KeepsNames(st.mem, m, p, -1) && Find(Contents(m), u.name) < m.len
            && st.mem.len <= m.len
  {
    var m, i := st.mem, Find(Contents(st.mem), u.name);
    if p < m.len { assert Contents(m)[p].name == u.name && i <= p; }
    FindIs(Contents(Apply(st, Update(u, at)).mem), u.name, i);
  }

  lemma DrainKeepsNames(st: State, p: nat, h: Heal)
    requires Ok(st.mem) && st.mem.aliased && p < |st.mem.slots|
    ensures var x := st.mem.slots[p].name;
            var m := Run(st, DrainSteps(x, h)).mem;
            && KeepsNames(st.mem, m, p, -1) && Find(Contents(m), x) < m.len && st.mem.len <= m.len
  {
    hide Run, Apply, Find, Contents;
    var x := st.mem.slots[p].name;
    var first, rest := Update(PhaseUpdate(x, Draining), h.at), DrainSteps(x, h)[1..];
    FirstUpdate(st, p, first.update, h.at);
    RunOne(st, first);
    assert DrainSteps(x, h) == [first] + rest;
    RunConcat(st, [first], rest);
    RestOnlyUpdates(x, h);
    UpdatesStayInPlace(Apply(st, first), rest, x);
    hide DrainSteps, OnlyUpdates;
  }

  lemma RestOnlyUpdates(x: string, h: Heal)
    ensures OnlyUpdates(DrainSteps(x, h)[1..], x)
  {
    DrainOnlyUpdates(x, h);
    assert forall s | s in DrainSteps(x, h)[1..] :: s in DrainSteps(x, h);
  }

  lemma RemovalKeepsNames(st: State, p: nat, h: Heal)
    requires Ok(st.mem) && st.mem.aliased && p < |st.mem.slots|
    ensures var m := Run(st, RemovalSteps(st.mem.slots[p].name, h)).mem;
            KeepsNames(st.mem, m, p + 1, -1) && st.mem.len - 1 <= m.len < |m.slots|
  {
    hide Run;
    var x := st.mem.slots[p].name;
    DrainKeepsNames(st, p, h);
    hide DrainSteps;
    var st1 := Run(st, DrainSteps(x, h));
    RunConcat(st, DrainSteps(x, h), [Remove(x)]);
    RunOne(st1, Remove(x));
    RemoveIsMild(st1, p);
  }

  // The fresh node is absent from a list of length `slot`, or is its last entry there.
  ghost predicate Hovers(m: Mem, name: string, slot: nat) {
    && Ok(m) && m.aliased && slot < |m.slots|
    && Find(Contents(m), name) == slot && (m.len == slot || m.len == slot + 1)
  }

  lemma HoverStep(st: State, s: Step, name: string, slot: nat)
    requires Hovers(st.mem, name, slot) && StepName(s) == name
    ensures var m := Apply(st, s).mem;
            && Hovers(m, name, slot) && KeepsNames(st.mem, m, 0, slot)
            && (s.Update? || st.mem.slots[slot].name == name ==> m.slots[slot].name == name)
  {
    var m := Apply(st, s).mem;
    match s
    case Update(u, at) =>
      FindIs(Contents(m), name, slot);
    case Remove(_) =>
      FindIs(Contents(m), name, slot);
    case Do(_) =>
  }

  lemma {:induction false} HoverRun(st: State, steps: seq<Step>, name: string, slot: nat)
    requires Ok(st.mem) && Hovers(st.mem, name, slot) && NamedBy(steps, name)
    ensures var m := Run(st, steps).mem;
            && Hovers(m, name, slot) && KeepsNames(st.mem, m, 0, slot)
            && (steps != [] && steps[0].Update? ==> m.slots[slot].name == name)
  {
    hide Hovers, Apply;
    if steps == [] {
      assert st.mem.aliased by { HoversIsAliased(st.mem, name, slot); }
    } else {
      var k := |steps| - 1;
      HoverRun(st, steps[..k], name, slot);
      assert steps[k] in steps && forall s | s in steps[..k] :: s in steps;
      HoverStep(Run(st, steps[..k]), steps[k], name, slot);
    }
  }

  lemma HoversIsAliased(m: Mem, name: string, slot: nat)
    requires Hovers(m, name, slot)
    ensures m.aliased && slot < |m.slots|
  {
  }

  /** The slot that the entry of a replacement's attempt is put into, if there is one. */
  ghost function Landing(st: State, p: nat, h: Heal): Option<nat>
    requires Ok(st.mem) && p < |st.mem.pinned|
  {
    if NodeObjectRefused(h) || !h.prepared then None
    else Some(Run(st, RemovalSteps(st.mem.pinned[p].name, h)).mem.len)
  }

  // What one replacement does to the slot q of a later pointer.
  ghost predicate SlotAfter(st: State, p: nat, h: Heal, q: nat)
    requires Ok(st.mem) && p < |st.mem.pinned| && q < |st.mem.pinned|
  {
    var m := Run(st, ReplaceSteps(st.mem.pinned[p].name, h)).mem;
    && m.aliased && |m.pinned| == |st.mem.pinned|
    && m.pinned[q].name == if Landing(st, p, h) == Some(q) then h.attempt.name else st.mem.pinned[q].name
  }

  lemma AttemptLands(st: State, a: Attempt)
    requires Ok(st.mem) && st.mem.aliased && st.mem.len < |st.mem.slots| && a.name !in Names(Contents(st.mem))
    ensures var m := Run(st, AttemptSteps(Worker, a)).mem;
            && KeepsNames(st.mem, m, 0, st.mem.len) && m.slots[st.mem.len].name == a.name
            && st.mem.len <= m.len
  {
    AttemptIsNamed(Worker, a);
    EntryNone(Contents(st.mem), a.name);
    AttemptStarts(a);
    assert Hovers(st.mem, a.name, st.mem.len);
    hide Run, AttemptSteps, Names, Contents, NamedBy;
    HoverRun(st, AttemptSteps(Worker, a), a.name, st.mem.len);
  }

  lemma AttemptStarts(a: Attempt)
    ensures AttemptSteps(Worker, a) != [] && AttemptSteps(Worker, a)[0].Update?
  {
  }

  /** A replacement leaves the slot of a later pointer alone, unless its own attempt
      lands there; and it shortens the list by one entry at most. */
  lemma ReplacementWrites(st: State, p: nat, h: Heal)
    requires Ok(st.mem) && st.mem.aliased && p < |st.mem.pinned|
    requires h.attempt.name !in Names(Contents(st.mem)) && h.attempt.name != st.mem.pinned[p].name
    ensures forall q | p < q < |st.mem.pinned| :: SlotAfter(st, p, h, q)
    ensures Run(st, ReplaceSteps(st.mem.pinned[p].name, h)).mem.aliased
    ensures Run(st, ReplaceSteps(st.mem.pinned[p].name, h)).mem.len >= st.mem.len - 1
    ensures Landing(st, p, h).Some? ==> Landing(st, p, h).value >= st.mem.len - 1
  {
    hide Run, Names, Contents, DrainSteps, AttemptSteps;
    var x := st.mem.pinned[p].name;
    DrainKeepsNames(st, p, h);
    RemovalKeepsNames(st, p, h);
    var cut := RemovalSteps(x, h);
    hide RemovalSteps, Find;
    if !NodeObjectRefused(h) && h.prepared {
      AbsentAfterDrain(st, x, h);
      AttemptLands(Run(st, cut), h.attempt);
      RunConcat(st, cut, AttemptSteps(Worker, h.attempt));
    }
  }

  // ---- Per run: which turns meet a replacement ------------------------------------------

  /** The names under the pointers, each as its turn comes, as far as the budget goes. */
  ghost function Victims(st: State, ptrs: seq<nat>, hs: seq<Heal>, budget: nat): (vs: seq<string>)
    requires Ok(st.mem) && |ptrs| == |hs|
    requires forall i | 0 <= i < |ptrs| :: ptrs[i] < |st.mem.pinned|
    ensures |vs| <= |ptrs|
    decreases |ptrs|
  {
    if ptrs == [] || budget == 0 then []
    else
      var x := st.mem.pinned[ptrs[0]].name;
      PinnedKeepsLength(st, ReplaceSteps(x, hs[0]));
      [x] + Victims(Run(st, ReplaceSteps(x, hs[0])), ptrs[1..], hs[1..],
                    if ReplaceSucceeds(hs[0]) then budget - 1 else budget)
  }

  /** Where the attempts of those turns land. */
  ghost function Landings(st: State, ptrs: seq<nat>, hs: seq<Heal>, budget: nat): (ls: seq<Option<nat>>)
    requires Ok(st.mem) && |ptrs| == |hs|
    requires forall i | 0 <= i < |ptrs| :: ptrs[i] < |st.mem.pinned|
    ensures |ls| == |Victims(st, ptrs, hs, budget)| <= |ptrs|
    decreases |ptrs|
  {
    if ptrs == [] || budget == 0 then []
    else
      var x := st.mem.pinned[ptrs[0]].name;
      PinnedKeepsLength(st, ReplaceSteps(x, hs[0]));
      [Landing(st, ptrs[0], hs[0])] +
      Landings(Run(st, ReplaceSteps(x, hs[0])), ptrs[1..], hs[1..],
               if ReplaceSucceeds(hs[0]) then budget - 1 else budget)
  }

  /** Whose entry slot q holds after these turns: that of the last attempt that landed
      there, else the original one. */
  ghost function Holder(original: string, q: nat, ls: seq<Option<nat>>, hs: seq<Heal>): string
    requires |ls| == |hs|
  {
    if ls == [] then original
    else
      var k := |ls| - 1;
      if ls[k] == Some(q) then hs[k].attempt.name else Holder(original, q, ls[..k], hs[..k])
  }

  lemma {:induction false} HolderFront(original: string, q: nat, ls: seq<Option<nat>>, hs: seq<Heal>)
    requires |ls| == |hs| > 0
    ensures Holder(original, q, ls, hs) ==
            Holder(if ls[0] == Some(q) then hs[0].attempt.name else original, q, ls[1..], hs[1..])
  {
    var k := |ls| - 1;
    if k > 0 {
      HolderFront(original, q, ls[..k], hs[..k]);
      assert ls[1..][..k - 1] == ls[..k][1..] && hs[1..][..k - 1] == hs[..k][1..];
    }
  }

  // Some attempt landed in this slot.
  ghost predicate LandedOn(ls: seq<Option<nat>>, q: nat) {
    exists k | 0 <= k < |ls| :: ls[k] == Some(q)
  }

  lemma {:induction false} HolderIs(original: string, q: nat, ls: seq<Option<nat>>, hs: seq<Heal>)
    requires |ls| == |hs|
    ensures if LandedOn(ls, q) then Holder(original, q, ls, hs) in CreatedNames(hs)
            else Holder(original, q, ls, hs) == original
  {
    if ls != [] {
      var k := |ls| - 1;
      HolderIs(original, q, ls[..k], hs[..k]);
      assert hs[k] in hs && forall h | h in hs[..k] :: h in hs;
    }
  }

  lemma VictimsUnfold(st: State, ptrs: seq<nat>, hs: seq<Heal>, budget: nat)
    requires Ok(st.mem) && |ptrs| == |hs| > 0 && budget > 0
    requires forall i | 0 <= i < |ptrs| :: ptrs[i] < |st.mem.pinned|
    ensures var x := st.mem.pinned[ptrs[0]].name;
            var st1 := Run(st, ReplaceSteps(x, hs[0]));
            var b := if ReplaceSucceeds(hs[0]) then budget - 1 else budget;
            && |st1.mem.pinned| == |st.mem.pinned|
            && Victims(st, ptrs, hs, budget) == [x] + Victims(st1, ptrs[1..], hs[1..], b)
            && Landings(st, ptrs, hs, budget) == [Landing(st, ptrs[0], hs[0])] + Landings(st1, ptrs[1..], hs[1..], b)
  {
    PinnedKeepsLength(st, ReplaceSteps(st.mem.pinned[ptrs[0]].name, hs[0]));
    hide Run, ReplaceSteps, Landing;
  }

  // Turn j drains whoever holds its slot by then.
  ghost predicate TurnMeetsHolder(st: State, ptrs: seq<nat>, hs: seq<Heal>, budget: nat, j: nat)
    requires Ok(st.mem) && |ptrs| == |hs|
    requires forall i | 0 <= i < |ptrs| :: ptrs[i] < |st.mem.pinned|
    requires j < |Victims(st, ptrs, hs, budget)|
  {
    Victims(st, ptrs, hs, budget)[j] ==
    Holder(st.mem.pinned[ptrs[j]].name, ptrs[j], Landings(st, ptrs, hs, budget)[..j], hs[..j])
  }

  lemma {:induction false} VictimsAreHolders(st: State, ptrs: seq<nat>, hs: seq<Heal>, budget: nat,
                                             doomed: set<string>, j: nat)
    requires Ok(st.mem) && st.mem.aliased && |ptrs| == |hs|
    requires PointAt(st.mem, ptrs, doomed) && FreshNames(hs, doomed + Names(Contents(st.mem)))
    requires j < |Victims(st, ptrs, hs, budget)|
    ensures TurnMeetsHolder(st, ptrs, hs, budget, j)
    decreases |ptrs|
  {
    hide Run, Contents, Names, ReplaceSteps, Victims, Landings, Landing;
    assert ptrs != [] && budget > 0 by { NoTurns(st, ptrs, hs, budget); }
    VictimsUnfold(st, ptrs, hs, budget);
    if j > 0 {
      var x := st.mem.pinned[ptrs[0]].name;
      var st1, b := Run(st, ReplaceSteps(x, hs[0])), if ReplaceSucceeds(hs[0]) then budget - 1 else budget;
      ReplacementWrites(st, ptrs[0], hs[0]);
      PointersAfterReplace(st, ptrs, hs, doomed);
      VictimsAreHolders(st1, ptrs[1..], hs[1..], b, doomed + {hs[0].attempt.name}, j - 1);
      assert ptrs[0] < ptrs[j];
      assert SlotAfter(st, ptrs[0], hs[0], ptrs[j]);
      LaterTurn(st.mem.pinned[ptrs[j]].name, ptrs[j], Landings(st, ptrs, hs, budget), hs, j);
      hide Holder, FreshNames, PointAt;
    }
  }

  lemma NoTurns(st: State, ptrs: seq<nat>, hs: seq<Heal>, budget: nat)
    requires Ok(st.mem) && |ptrs| == |hs|
    requires forall i | 0 <= i < |ptrs| :: ptrs[i] < |st.mem.pinned|
    ensures (ptrs == [] || budget == 0) ==> Victims(st, ptrs, hs, budget) == []
  {
  }

  lemma LaterTurn(name0: string, q: nat, ls: seq<Option<nat>>, hs: seq<Heal>, j: nat)
    requires 0 < j <= |ls| <= |hs|
    ensures Holder(name0, q, ls[..j], hs[..j]) ==
            Holder(if ls[0] == Some(q) then hs[0].attempt.name else name0, q, ls[1..][..j - 1], hs[1..][..j - 1])
  {
    HolderFront(name0, q, ls[..j], hs[..j]);
    assert ls[..j][1..] == ls[1..][..j - 1] && hs[..j][1..] == hs[1..][..j - 1];
  }

  /** In any run, the node that turn j drains is a replacement if and only if an earlier
      turn dropped its worker and made an attempt that landed in the slot of pointer j. */
  lemma TurnDrainsReplacementIff(st: State, ptrs: seq<nat>, hs: seq<Heal>, budget: nat, doomed: set<string>, j: nat)
    requires Ok(st.mem) && st.mem.aliased && |ptrs| == |hs|
    requires PointAt(st.mem, ptrs, doomed) && FreshNames(hs, doomed + Names(Contents(st.mem)))
    requires j < |Victims(st, ptrs, hs, budget)|
    ensures var ls := Landings(st, ptrs, hs, budget);
            && (Victims(st, ptrs, hs, budget)[j] in CreatedNames(hs) <==> LandedOn(ls[..j], ptrs[j]))
            && (!LandedOn(ls[..j], ptrs[j]) ==> Victims(st, ptrs, hs, budget)[j] == st.mem.pinned[ptrs[j]].name)
  {
    hide Victims, Landings, Contents, Names, Holder;
    var ls, original := Landings(st, ptrs, hs, budget), st.mem.pinned[ptrs[j]].name;
    VictimsAreHolders(st, ptrs, hs, budget, doomed, j);
    HolderIs(original, ptrs[j], ls[..j], hs[..j]);
    CreatedAreFresh(hs, doomed + Names(Contents(st.mem)));
    assert CreatedNames(hs[..j]) <= CreatedNames(hs) by {
      assert forall h | h in hs[..j] :: h in hs;
    }
    assert original in doomed + Names(Contents(st.mem));
  }

  lemma CreatedAreFresh(hs: seq<Heal>, used: set<string>)
    requires FreshNames(hs, used)
    ensures CreatedNames(hs) !! used
  {
    forall n | n in CreatedNames(hs) ensures n !in used {
      var h :| h in hs && h.attempt.name == n;
      var i :| 0 <= i < |hs| && hs[i] == h;
    }
  }

  // ---- Drains and deletions of the loop are those of its turns ----------------------------

  // The node is drained, or its node object deleted.
  predicate Harms(steps: seq<Step>, name: string) {
    Do(Drained(name)) in steps || Do(NodeObjectDeleted(name)) in steps
  }

  lemma ReplaceHarms(x: string, h: Heal, name: string)
    ensures Do(Drained(name)) in ReplaceSteps(x, h) <==> name == x
    ensures Harms(ReplaceSteps(x, h), name) <==> name == x
  {
    AttemptHarmsNobody(h.attempt, name);
    hide AttemptSteps;
    assert DrainSteps(x, h)[1] == Do(Drained(x));
    assert Do(Drained(x)) in DrainSteps(x, h);
  }

  lemma AttemptHarmsNobody(a: Attempt, name: string)
    ensures !Harms(AttemptSteps(Worker, a), name)
  {
    assert !Harms(FailureSteps(a), name);
    hide FailureSteps;
    assert !Harms(WaitSteps(Worker, a), name) && !Harms(ProvisionSteps(a), name);
    hide WaitSteps, ProvisionSteps;
  }

  /** The nodes the loop drains are exactly the victims of its turns, and it deletes no
      other node's object. */
  lemma {:induction false} HarmsVictims(st: State, ptrs: seq<nat>, hs: seq<Heal>, budget: nat, name: string)
    requires Ok(st.mem) && |ptrs| == |hs|
    requires forall i | 0 <= i < |ptrs| :: ptrs[i] < |st.mem.pinned|
    ensures Do(Drained(name)) in HealSteps(st, ptrs, hs, budget) <==> name in Victims(st, ptrs, hs, budget)
    ensures Harms(HealSteps(st, ptrs, hs, budget), name) <==> name in Victims(st, ptrs, hs, budget)
    decreases |ptrs|
  {
    hide Run, ReplaceSteps, HealSteps, Victims, Landings;
    NoTurns(st, ptrs, hs, budget);
    if ptrs == [] || budget == 0 {
      HealEnds(st, ptrs, hs, budget);
    } else {
      var x := st.mem.pinned[ptrs[0]].name;
      var st1, b := Run(st, ReplaceSteps(x, hs[0])), if ReplaceSucceeds(hs[0]) then budget - 1 else budget;
      HealUnfolds(st, ptrs, hs, budget);
      VictimsUnfold(st, ptrs, hs, budget);
      ReplaceHarms(x, hs[0], name);
      HarmsVictims(st1, ptrs[1..], hs[1..], b, name);
    }
  }

  // ---- Which lists are safe -----------------------------------------------------------------

  /** Each turn shortens the list by one entry at most, so the attempt of turn k lands at
      most k + 1 slots before the original end. */
  lemma {:induction false} LandingBound(st: State, ptrs: seq<nat>, hs: seq<Heal>, budget: nat, doomed: set<string>,
                                        k: nat)
    requires Ok(st.mem) && st.mem.aliased && |ptrs| == |hs|
    requires PointAt(st.mem, ptrs, doomed) && FreshNames(hs, doomed + Names(Contents(st.mem)))
    requires k < |Landings(st, ptrs, hs, budget)|
    ensures var l := Landings(st, ptrs, hs, budget)[k]; l.Some? ==> l.value >= st.mem.len - 1 - k
    decreases |ptrs|
  {
    hide Run, Contents, Names, ReplaceSteps, Victims, Landings, Landing;
    assert ptrs != [] && budget > 0 by { NoTurns(st, ptrs, hs, budget); }
    VictimsUnfold(st, ptrs, hs, budget);
    ReplacementWrites(st, ptrs[0], hs[0]);
    if k > 0 {
      var x := st.mem.pinned[ptrs[0]].name;
      var st1, b := Run(st, ReplaceSteps(x, hs[0])), if ReplaceSucceeds(hs[0]) then budget - 1 else budget;
      PointersAfterReplace(st, ptrs, hs, doomed);
      LandingBound(st1, ptrs[1..], hs[1..], b, doomed + {hs[0].attempt.name}, k - 1);
      hide FreshNames, PointAt;
    }
  }

  /** The last pointer lies further from the end of the list than there are turns
      before it; or it is the only one. */
  predicate Roomy(ptrs: seq<nat>, n: nat) {
    |ptrs| < 2 || ptrs[|ptrs| - 1] + |ptrs| <= n
  }

  lemma {:induction false} IncreasingGap(ptrs: seq<nat>, j: nat, k: nat)
    requires Increasing(ptrs) && j <= k < |ptrs|
    ensures ptrs[j] + (k - j) <= ptrs[k]
  {
    if j < k {
      IncreasingGap(ptrs, j, k - 1);
    }
  }

  lemma RoomyIsSpared(st: State, ptrs: seq<nat>, hs: seq<Heal>, budget: nat, doomed: set<string>, j: nat)
    requires Ok(st.mem) && st.mem.aliased && |ptrs| == |hs|
    requires PointAt(st.mem, ptrs, doomed) && FreshNames(hs, doomed + Names(Contents(st.mem)))
    requires j < |Victims(st, ptrs, hs, budget)| && Roomy(ptrs, st.mem.len)
    ensures Victims(st, ptrs, hs, budget)[j] == st.mem.pinned[ptrs[j]].name
  {
    hide Victims, Landings, Contents, Names, FreshNames;
    var ls := Landings(st, ptrs, hs, budget);
    forall k | 0 <= k < j ensures ls[k] != Some(ptrs[j]) {
      LandingBound(st, ptrs, hs, budget, doomed, k);
      IncreasingGap(ptrs, j, |ptrs| - 1);
    }
    assert !LandedOn(ls[..j], ptrs[j]);
    TurnDrainsReplacementIff(st, ptrs, hs, budget, doomed, j);
  }

  // A turn that makes no attempt keeps the list or drops one entry.
  lemma TurnWithoutAttempt(st: State, p: nat, h: Heal)
    requires Ok(st.mem) && st.mem.aliased && UniqueNames(Contents(st.mem)) && p < st.mem.len
    requires NodeObjectRefused(h) || !h.prepared
    ensures var m := Run(st, ReplaceSteps(st.mem.pinned[p].name, h)).mem;
            && m.aliased && m.len == st.mem.len - (if NodeObjectRefused(h) then 0 else 1)
            && UniqueNames(Contents(m)) && Names(Contents(m)) <= Names(Contents(st.mem))
  {
    hide Run, UniqueNames, Names, DrainSteps, NodeObjectRefused;
    var x := st.mem.pinned[p].name;
    var steps := ReplaceSteps(x, h);
    RunRefinesList(st, steps);
    EntryAfterRun(Contents(st.mem), steps, x);
    NamesAfterRun(Contents(st.mem), steps);
    PointedIsListed(st.mem, p);
    DrainIsNamed(x, h);
    if NodeObjectRefused(h) {
      EntryNone(Contents(st.mem), x);
      DrainOnlyUpdates(x, h);
      UpdatesStayInPlace(st, steps, x);
    } else {
      LengthAfterRemove(st, p, h);
    }
    hide Contents;
  }

  /** Without room some failure pattern makes the last turn drain what the turn before it
      created. Earlier turns shorten the list until its end is just past the last
      pointer; the attempt of the last but one then lands there. */
  lemma {:induction false} SomeoneFreshIsDrained(st: State, ptrs: seq<nat>, names: seq<string>, budget: nat)
    returns (hs: seq<Heal>)
    requires Ok(st.mem) && st.mem.aliased && UniqueNames(Contents(st.mem)) && Increasing(ptrs) && budget > 0
    requires |names| == |ptrs| >= 2 && names[|ptrs| - 2] !in Names(Contents(st.mem))
    requires ptrs[|ptrs| - 1] < st.mem.len < ptrs[|ptrs| - 1] + |ptrs|
    ensures |hs| == |ptrs| && forall k | 0 <= k < |hs| :: hs[k].attempt.name == names[k]
    ensures forall i | 0 <= i < |ptrs| :: ptrs[i] < |st.mem.pinned|
    ensures Do(Drained(names[|ptrs| - 2])) in HealSteps(st, ptrs, hs, budget)
    decreases |ptrs|
  {
    hide Run, HealSteps, ReplaceSteps, Contents, Names, UniqueNames;
    var k := |ptrs| - 1;
    var failed := (name: string) => Attempt(name, NoAddress, Configured, true, 0);
    if k == 1 {
      hs := [Heal(true, true, true, true, failed(names[0]), 0), Heal(true, true, true, true, failed(names[1]), 0)];
      assert ptrs == [ptrs[0], st.mem.len - 1];
      ReplacementIsDrained(st, ptrs[0], hs, budget);
    } else {
      var refused := ptrs[k] + 1 == st.mem.len;
      var h := Heal(true, !refused, true, false, failed(names[0]), 0);
      var st1 := Run(st, ReplaceSteps(st.mem.pinned[ptrs[0]].name, h));
      TurnWithoutAttempt(st, ptrs[0], h);
      var later := SomeoneFreshIsDrained(st1, ptrs[1..], names[1..], budget);
      hs := [h] + later;
      assert hs[1..] == later;
      HealUnfolds(st, ptrs, hs, budget);
    }
  }

  // Whatever the calls answer, the loop drains no node and deletes no node object
  // but those named.
  ghost predicate SparesOthers(st: State, ptrs: seq<nat>, cap: nat, named: set<string>)
    requires Ok(st.mem) && forall i | 0 <= i < |ptrs| :: ptrs[i] < |st.mem.pinned|
  {
    forall hs: seq<Heal>, name: string |
      |hs| == |ptrs| && FreshNames(hs, Names(Contents(st.mem))) && Harms(HealSteps(st, ptrs, hs, cap), name) ::
      name in named
  }

  /** Healing drains and deletes only workers past the threshold, whatever fails, if and
      only if fewer than two are past it or the last of them is further from the end of
      the list than there are others. The cap does not matter. */
  lemma HealingIsExact(st: State, threshold: int, now: nat, cap: nat)
    requires Ok(st.mem) && st.mem.aliased && UniqueNames(Contents(st.mem)) && cap > 0
    ensures var ptrs := PastThresholdPointers(Contents(st.mem), threshold, now);
            && (forall i | 0 <= i < |ptrs| :: ptrs[i] < |st.mem.pinned|)
            && (SparesOthers(st, ptrs, cap, PastNames(Contents(st.mem), threshold, now)) <==>
                Roomy(ptrs, st.mem.len))
  {
    var list := Contents(st.mem);
    var ptrs, past := PastThresholdPointers(list, threshold, now), PastNames(list, threshold, now);
    PointersAreExact(list, threshold, now);
    assert PointAt(st.mem, ptrs, past) && past <= Names(list) by {
      forall k | 0 <= k < |ptrs| ensures list[ptrs[k]].name in past { assert ptrs[k] in ptrs; }
    }
    hide PastThresholdPointers, PastNames, UniqueNames, HealSteps;
    if Roomy(ptrs, st.mem.len) {
      RoomySpares(st, ptrs, cap, past);
    } else {
      hide Contents;
      CrampedHarms(st, ptrs, cap, past);
    }
  }

  lemma RoomySpares(st: State, ptrs: seq<nat>, cap: nat, past: set<string>)
    requires Ok(st.mem) && st.mem.aliased && PointAt(st.mem, ptrs, past) && past <= Names(Contents(st.mem))
    requires Roomy(ptrs, st.mem.len)
    ensures SparesOthers(st, ptrs, cap, past)
  {
    hide Contents, Names, Victims, HealSteps, Harms, FreshNames, Roomy;
    forall hs: seq<Heal>, name: string |
      |hs| == |ptrs| && FreshNames(hs, Names(Contents(st.mem))) && Harms(HealSteps(st, ptrs, hs, cap), name)
      ensures name in past
    {
      HarmsVictims(st, ptrs, hs, cap, name);
      var j :| 0 <= j < |Victims(st, ptrs, hs, cap)| && Victims(st, ptrs, hs, cap)[j] == name;
      assert past + Names(Contents(st.mem)) == Names(Contents(st.mem));
      RoomyIsSpared(st, ptrs, hs, cap, past, j);
    }
  }

  lemma CrampedHarms(st: State, ptrs: seq<nat>, cap: nat, past: set<string>)
    requires Ok(st.mem) && st.mem.aliased && UniqueNames(Contents(st.mem)) && cap > 0
    requires PointAt(st.mem, ptrs, past) && past <= Names(Contents(st.mem)) && !Roomy(ptrs, st.mem.len)
    requires ptrs[|ptrs| - 1] < st.mem.len
    ensures !SparesOthers(st, ptrs, cap, past)
  {
    hide Contents, Names, UniqueNames, HealSteps;
    var names := FreshStrings(Names(Contents(st.mem)), |ptrs|);
    var hs := SomeoneFreshIsDrained(st, ptrs, names, cap);
    assert FreshNames(hs, Names(Contents(st.mem)));
    assert Harms(HealSteps(st, ptrs, hs, cap), names[|ptrs| - 2]);
  }
}
