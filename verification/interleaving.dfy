/** Goroutines that share the node list: every interleaving of their steps. */
module Interleaving {
  import opened Nodes
  import opened Steps

  function StepName(s: Step): string {
    match s
    case Update(u, _) => u.name
    case Remove(name) => name
    case Do(e) => e.name
  }

  ghost predicate NamedBy(steps: seq<Step>, name: string) {
    forall s | s in steps :: StepName(s) == name
  }

  /** The steps that concern one name, in order. */
  function Own(steps: seq<Step>, name: string): seq<Step> {
    if steps == [] then []
    else
      var s := steps[|steps| - 1];
      Own(steps[..|steps| - 1], name) + if StepName(s) == name then [s] else []
  }

  lemma OwnSnoc(steps: seq<Step>, s: Step, name: string)
    ensures Own(steps + [s], name) == if StepName(s) == name then Own(steps, name) + [s] else Own(steps, name)
  {
    assert (steps + [s])[..|steps|] == steps;
  }

  lemma {:induction false} OwnNone(steps: seq<Step>, name: string)
    requires forall s | s in steps :: StepName(s) != name
    ensures Own(steps, name) == []
  {
    if steps != [] {
      OwnNone(steps[..|steps| - 1], name);
      assert steps[|steps| - 1] in steps;
    }
  }

  function EntryStep(e: Option<NodeStatus>, s: Step): Option<NodeStatus> {
    match s
    case Update(u, at) => Some(if e.Some? then Touch(e.value, u, at) else NewEntry(u, at))
    case Remove(_) => None
    case Do(_) => e
  }

  function RunEntry(e: Option<NodeStatus>, steps: seq<Step>): Option<NodeStatus> {
    if steps == [] then e
    else EntryStep(RunEntry(e, steps[..|steps| - 1]), steps[|steps| - 1])
  }

  lemma EntryAfterStep(s: seq<NodeStatus>, step: Step, name: string)
    requires UniqueNames(s)
    ensures UniqueNames(ApplyList(s, step))
    ensures Entry(ApplyList(s, step), name) ==
            if StepName(step) == name then EntryStep(Entry(s, name), step) else Entry(s, name)
  {
    match step
    case Update(u, at) =>
      UpsertKeepsUnique(s, u, at);
      UpsertEntry(s, u, at, name);
    case Remove(n) =>
      SwapRemoveKeepsUnique(s, n);
      SwapRemoveEntry(s, n, name);
    case Do(_) =>
  }

  lemma RunEntrySnoc(e: Option<NodeStatus>, steps: seq<Step>, s: Step)
    ensures RunEntry(e, steps + [s]) == EntryStep(RunEntry(e, steps), s)
  {
    assert (steps + [s])[..|steps|] == steps;
  }

  /** A name's final entry depends on its own steps alone, whatever surrounds them. */
  lemma {:induction false} EntryAfterRun(s: seq<NodeStatus>, steps: seq<Step>, name: string)
    requires UniqueNames(s)
    ensures UniqueNames(RunList(s, steps))
    ensures Entry(RunList(s, steps), name) == RunEntry(Entry(s, name), Own(steps, name))
  {
    if steps != [] {
      var k := |steps| - 1;
      EntryAfterRun(s, steps[..k], name);
      EntryAfterStep(RunList(s, steps[..k]), steps[k], name);
      RunEntrySnoc(Entry(s, name), Own(steps[..k], name), steps[k]);
      assert Own(steps[..k], name) + [] == Own(steps[..k], name);
    }
  }

  // ---- Interleavings -------------------------------------------------------

  // A schedule lists which goroutine moves next.
  function Taken(sched: seq<nat>, i: nat): nat {
    if sched == [] then 0
    else Taken(sched[..|sched| - 1], i) + if sched[|sched| - 1] == i then 1 else 0
  }

  ghost predicate Fits(scripts: seq<seq<Step>>, sched: seq<nat>) {
    sched == [] || (
      var k := |sched| - 1;
      Fits(scripts, sched[..k]) && sched[k] < |scripts| && Taken(sched[..k], sched[k]) < |scripts[sched[k]]|)
  }

  ghost predicate Complete(scripts: seq<seq<Step>>, sched: seq<nat>) {
    Fits(scripts, sched) && forall i | 0 <= i < |scripts| :: Taken(sched, i) == |scripts[i]|
  }

  ghost function Interleave(scripts: seq<seq<Step>>, sched: seq<nat>): (t: seq<Step>)
    requires Fits(scripts, sched)
    ensures |t| == |sched|
  {
    if sched == [] then []
    else
      var k := |sched| - 1;
      Interleave(scripts, sched[..k]) + [scripts[sched[k]][Taken(sched[..k], sched[k])]]
  }

  ghost predicate Distinct(names: seq<string>) {
    forall i, j | 0 <= i < j < |names| :: names[i] != names[j]
  }

  lemma {:induction false} DistinctCount(names: seq<string>)
    ensures |set n | n in names| <= |names|
    ensures Distinct(names) ==> |set n | n in names| == |names|
  {
    if names != [] {
      var k := |names| - 1;
      DistinctCount(names[..k]);
      assert names == names[..k] + [names[k]];
      assert (set n | n in names) == (set n | n in names[..k]) + {names[k]};
    }
  }

  ghost predicate Owned(scripts: seq<seq<Step>>, names: seq<string>) {
    |scripts| == |names| && Distinct(names) && forall i | 0 <= i < |names| :: NamedBy(scripts[i], names[i])
  }

  lemma StepOwner(scripts: seq<seq<Step>>, names: seq<string>, j: nat, m: nat, i: nat)
    requires Owned(scripts, names) && j < |scripts| && m < |scripts[j]| && i < |names|
    ensures StepName(scripts[j][m]) == names[i] <==> i == j
  {
    assert scripts[j][m] in scripts[j];
  }

  lemma {:induction false} OwnInInterleaving(scripts: seq<seq<Step>>, names: seq<string>, sched: seq<nat>, i: nat)
    requires Owned(scripts, names) && Fits(scripts, sched) && i < |names|
    ensures Taken(sched, i) <= |scripts[i]|
    ensures Own(Interleave(scripts, sched), names[i]) == scripts[i][..Taken(sched, i)]
  {
    hide Owned;
    if sched != [] {
      var k := |sched| - 1;
      var j, before := sched[k], Interleave(scripts, sched[..k]);
      var m := Taken(sched[..k], j);
      OwnInInterleaving(scripts, names, sched[..k], i);
      assert Interleave(scripts, sched) == before + [scripts[j][m]];
      hide Own, Interleave, StepName, Fits;
      OwnSnoc(before, scripts[j][m], names[i]);
      StepOwner(scripts, names, j, m, i);
    }
  }

  lemma {:induction false} NoStrangers(scripts: seq<seq<Step>>, names: seq<string>, sched: seq<nat>, name: string)
    requires Owned(scripts, names) && Fits(scripts, sched) && name !in names
    ensures Own(Interleave(scripts, sched), name) == []
  {
    if sched != [] {
      var k := |sched| - 1;
      var j, t := sched[k], Interleave(scripts, sched);
      NoStrangers(scripts, names, sched[..k], name);
      assert t[..k] == Interleave(scripts, sched[..k]);
      assert t[k] in scripts[j];
    }
  }

  /** Running the goroutines one after another. */
  function Sequential(scripts: seq<seq<Step>>): seq<Step> {
    if scripts == [] then [] else Sequential(scripts[..|scripts| - 1]) + scripts[|scripts| - 1]
  }

  lemma {:induction false} OwnConcat(a: seq<Step>, b: seq<Step>, name: string)
    ensures Own(a + b, name) == Own(a, name) + Own(b, name)
  {
    if b == [] {
      assert a + b == a;
    } else {
      OwnConcat(a, b[..|b| - 1], name);
      assert (a + b)[..|a + b| - 1] == a + b[..|b| - 1];
    }
  }

  lemma {:induction false} OwnOfNamed(steps: seq<Step>, owner: string, name: string)
    requires NamedBy(steps, owner)
    ensures Own(steps, name) == if owner == name then steps else []
  {
    if steps != [] {
      OwnOfNamed(steps[..|steps| - 1], owner, name);
    }
  }

  lemma {:induction false} OwnInSequential(scripts: seq<seq<Step>>, names: seq<string>, name: string)
    requires Owned(scripts, names)
    ensures forall i | 0 <= i < |names| && names[i] == name :: Own(Sequential(scripts), name) == scripts[i]
    ensures name !in names ==> Own(Sequential(scripts), name) == []
  {
    assert |scripts| == |names|;
    hide Owned, Own, Sequential, NamedBy;
    if scripts == [] {
      NothingOwned(name);
    } else {
      var k := |scripts| - 1;
      OwnedPrefix(scripts, names);
      OwnInSequential(scripts[..k], names[..k], name);
      OwnOfNamed(scripts[k], names[k], name);
      OwnOfLast(scripts, name);
    }
  }

  lemma NothingOwned(name: string)
    ensures Own(Sequential([]), name) == []
  {
  }

  lemma OwnOfLast(scripts: seq<seq<Step>>, name: string)
    requires scripts != []
    ensures var k := |scripts| - 1;
            Own(Sequential(scripts), name) == Own(Sequential(scripts[..k]), name) + Own(scripts[k], name)
  {
    OwnConcat(Sequential(scripts[..|scripts| - 1]), scripts[|scripts| - 1], name);
  }

  lemma OwnedPrefix(scripts: seq<seq<Step>>, names: seq<string>)
    requires Owned(scripts, names) && scripts != []
    ensures |names| == |scripts|
    ensures var k := |scripts| - 1;
            && Owned(scripts[..k], names[..k]) && NamedBy(scripts[k], names[k])
            && forall i | 0 <= i < k :: names[i] != names[k] && names[i] in names[..k]
  {
    var k := |scripts| - 1;
    assert forall i | 0 <= i < k :: names[..k][i] == names[i];
  }

  // ---- Confluence up to clock readings -------------------------------------

  function Timeless(n: NodeStatus): NodeStatus {
    n.(transitionTime := None)
  }

  function TimelessEntry(e: Option<NodeStatus>): Option<NodeStatus> {
    if e.Some? then Some(Timeless(e.value)) else None
  }

  function TimelessList(s: seq<NodeStatus>): (t: seq<NodeStatus>)
    ensures |t| == |s| && forall i | 0 <= i < |s| :: t[i] == Timeless(s[i])
  {
    seq(|s|, i requires 0 <= i < |s| => Timeless(s[i]))
  }

  ghost predicate SameButForTime(a: seq<Step>, b: seq<Step>) {
    |a| == |b| && forall k | 0 <= k < |a| ::
      a[k] == b[k] || (a[k].Update? && b[k].Update? && a[k].update == b[k].update)
  }

  lemma {:induction false} RunEntryTimeless(e: Option<NodeStatus>, a: seq<Step>, b: seq<Step>)
    requires SameButForTime(a, b)
    ensures TimelessEntry(RunEntry(e, a)) == TimelessEntry(RunEntry(e, b))
  {
    if a != [] {
      RunEntryTimeless(e, a[..|a| - 1], b[..|b| - 1]);
    }
  }

  lemma TimelessListEntry(s: seq<NodeStatus>, name: string)
    requires UniqueNames(s)
    ensures UniqueNames(TimelessList(s))
    ensures Entry(TimelessList(s), name) == TimelessEntry(Entry(s, name))
  {
    FindIs(TimelessList(s), name, Find(s, name));
  }

  /** Two traces that give every name the same steps end with the same entries,
      up to order and clock readings. */
  lemma SameOwnSameEntries(list: seq<NodeStatus>, a: seq<Step>, b: seq<Step>)
    requires UniqueNames(list)
    requires forall n :: SameButForTime(Own(a, n), Own(b, n))
    ensures UniqueNames(RunList(list, a)) && UniqueNames(RunList(list, b))
    ensures multiset(TimelessList(RunList(list, a))) == multiset(TimelessList(RunList(list, b)))
  {
    hide RunList, Own, RunEntry, Entry, SameButForTime, UniqueNames;
    EntryAfterRun(list, a, "");
    EntryAfterRun(list, b, "");
    var x, y := RunList(list, a), RunList(list, b);
    TimelessListEntry(x, "");
    TimelessListEntry(y, "");
    forall n ensures Entry(TimelessList(x), n) == Entry(TimelessList(y), n) {
      EntryAfterRun(list, a, n);
      EntryAfterRun(list, b, n);
      RunEntryTimeless(Entry(list, n), Own(a, n), Own(b, n));
      TimelessListEntry(x, n);
      TimelessListEntry(y, n);
    }
    SameEntriesArePermutation(TimelessList(x), TimelessList(y));
  }

  /** What a complete interleaving gives each name: its goroutine's whole script. */
  lemma OwnInComplete(scripts: seq<seq<Step>>, names: seq<string>, sched: seq<nat>, name: string)
    requires Owned(scripts, names) && Complete(scripts, sched)
    ensures forall i | 0 <= i < |names| && names[i] == name :: Own(Interleave(scripts, sched), name) == scripts[i]
    ensures name !in names ==> Own(Interleave(scripts, sched), name) == []
  {
    hide Own, Interleave, Fits;
    forall i | 0 <= i < |names| && names[i] == name ensures Own(Interleave(scripts, sched), name) == scripts[i] {
      OwnInInterleaving(scripts, names, sched, i);
      assert scripts[i][..|scripts[i]|] == scripts[i];
    }
    if name !in names {
      NoStrangers(scripts, names, sched, name);
    }
  }

  /** Every complete interleaving ends with the same entries, up to order and
      clock readings, as running the goroutines one after another. */
  lemma Confluent(list: seq<NodeStatus>, names: seq<string>,
                  scripts: seq<seq<Step>>, sched: seq<nat>, other: seq<seq<Step>>)
    requires UniqueNames(list)
    requires Owned(scripts, names) && Owned(other, names) && Complete(scripts, sched)
    requires forall i | 0 <= i < |names| :: SameButForTime(scripts[i], other[i])
    ensures var parallel, serial := RunList(list, Interleave(scripts, sched)), RunList(list, Sequential(other));
            && UniqueNames(parallel)
            && multiset(TimelessList(parallel)) == multiset(TimelessList(serial))
  {
    hide RunList, Own, Interleave, Sequential;
    forall n ensures SameButForTime(Own(Interleave(scripts, sched), n), Own(Sequential(other), n)) {
      OwnInComplete(scripts, names, sched, n);
      OwnInSequential(other, names, n);
    }
    SameOwnSameEntries(list, Interleave(scripts, sched), Sequential(other));
  }

  /** Entries that were there before are untouched, and stay where they were. */
  lemma {:induction false} EarlierEntriesUntouched(list: seq<NodeStatus>, steps: seq<Step>)
    requires UniqueNames(list)
    requires forall s | s in steps :: StepName(s) !in Names(list)
    ensures list <= RunList(list, steps)
  {
    if steps != [] {
      var k := |steps| - 1;
      EarlierEntriesUntouched(list, steps[..k]);
      var before := RunList(list, steps[..k]);
      var i := Find(before, StepName(steps[k]));
      assert steps[k] in steps;
      assert forall j | 0 <= j < |list| :: before[j].name in Names(list);
      if steps[k].Remove? { SwapRemoveShape(before, steps[k].node); }
    }
  }
}
