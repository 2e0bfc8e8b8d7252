/** Choosing and removing surplus workers. */
module WorkerScaleDown {
  import opened Nodes
  import opened Steps
  import opened NodeGroups
  import opened Provisioning
  import opened Interleaving
  import opened Fleet

  // Unhealthy workers first, from the front; then healthy ones, from the back.
  ghost predicate WellOrdered(nodes: seq<NodeStatus>, selected: seq<nat>) {
    && (forall k | 0 <= k < |selected| :: selected[k] < |nodes|)
    && (forall a, b | 0 <= a < b < |selected| ::
          && (nodes[selected[a]].healthy ==> nodes[selected[b]].healthy && selected[a] > selected[b])
          && (!nodes[selected[a]].healthy && !nodes[selected[b]].healthy ==> selected[a] < selected[b]))
  }

  /** Distinct workers, in that order; none is passed over for a healthy one while
      it is unhealthy; among equals the unhealthy go front to back and the
      healthy, whose later names sort last, back to front. */
  ghost predicate ChosenWell(nodes: seq<NodeStatus>, selected: seq<nat>) {
    && WellOrdered(nodes, selected)
    && forall i, j | i in selected && 0 <= j < |nodes| && j !in selected ::
         && (nodes[i].healthy ==> nodes[j].healthy && j < i)
         && (!nodes[i].healthy && !nodes[j].healthy ==> i < j)
  }

  function Min(a: int, b: int): int {
    if a < b then a else b
  }

  function WithHealth(nodes: seq<NodeStatus>, healthy: bool): seq<nat> {
    if nodes == [] then []
    else
      var k := |nodes| - 1;
      WithHealth(nodes[..k], healthy) + if nodes[k].healthy == healthy then [k] else []
  }

  lemma {:induction false} WithHealthIs(nodes: seq<NodeStatus>, healthy: bool)
    ensures Ascending(WithHealth(nodes, healthy), |nodes|)
    ensures forall j | 0 <= j < |nodes| :: j in WithHealth(nodes, healthy) <==> nodes[j].healthy == healthy
  {
    if nodes != [] {
      WithHealthIs(nodes[..|nodes| - 1], healthy);
    }
  }

  /** The first `count` of: the unhealthy in order, then the healthy backwards. */
  function Picked(unhealthy: seq<nat>, healthy: seq<nat>, count: nat): seq<nat> {
    if count <= |unhealthy| then unhealthy[..count]
    else unhealthy + Backwards(healthy, |healthy| - Min(count - |unhealthy|, |healthy|))
  }

  function Selection(nodes: seq<NodeStatus>, count: int): seq<nat> {
    if count <= 0 then [] else Picked(WithHealth(nodes, false), WithHealth(nodes, true), count)
  }

  method SplitByHealth(nodes: seq<NodeStatus>) returns (unhealthy: seq<nat>, healthy: seq<nat>)
    ensures unhealthy == WithHealth(nodes, false) && healthy == WithHealth(nodes, true)
    ensures |unhealthy| + |healthy| == |nodes|
  {
    unhealthy, healthy := [], [];
    for i := 0 to |nodes|
      invariant |unhealthy| + |healthy| == i
      invariant unhealthy == WithHealth(nodes[..i], false) && healthy == WithHealth(nodes[..i], true)
    {
      assert nodes[..i + 1][..i] == nodes[..i];
      if !nodes[i].healthy {
        unhealthy := unhealthy + [i];
      } else {
        healthy := healthy + [i];
      }
    }
    assert nodes[..|nodes|] == nodes;
  }

  /** Exactly min(count, n) workers, chosen well. */
  method SelectWorkersForRemoval(nodes: seq<NodeStatus>, count: int) returns (selected: seq<nat>)
    ensures selected == Selection(nodes, count)
    ensures |selected| == if count <= 0 then 0 else Min(count, |nodes|)
    ensures ChosenWell(nodes, selected)
  {
    if count <= 0 || |nodes| == 0 {
      return [];
    }
    var unhealthy, healthy := SplitByHealth(nodes);
    selected := Pick(unhealthy, healthy, count);
    SelectionIsRight(nodes, count);
  }

  method Pick(unhealthy: seq<nat>, healthy: seq<nat>, count: nat) returns (selected: seq<nat>)
    ensures selected == Picked(unhealthy, healthy, count)
    ensures |selected| == Min(count, |unhealthy| + |healthy|)
  {
    selected := [];
    var k := 0;
    while k < |unhealthy| && |selected| < count
      invariant k <= |unhealthy| && k <= count && selected == unhealthy[..k]
    {
      selected := selected + [unhealthy[k]];
      k := k + 1;
    }
    var i := |healthy|;
    while i > 0 && |selected| < count
      invariant 0 <= i <= |healthy| && |selected| <= count
      invariant selected == unhealthy[..k] + Backwards(healthy, i)
      invariant k < |unhealthy| ==> k == count && i == |healthy|
    {
      selected := selected + [healthy[i - 1]];
      i := i - 1;
    }
  }

  predicate Ascending(xs: seq<nat>, bound: nat) {
    && (forall k | 0 <= k < |xs| :: xs[k] < bound)
    && (forall a, b | 0 <= a < b < |xs| :: xs[a] < xs[b])
  }

  /** xs from the back, down to index i. */
  function Backwards(xs: seq<nat>, i: nat): (r: seq<nat>)
    requires i <= |xs|
    ensures |r| == |xs| - i && forall k | 0 <= k < |r| :: r[k] == xs[|xs| - 1 - k]
  {
    seq(|xs| - i, k requires 0 <= k < |xs| - i => xs[|xs| - 1 - k])
  }

  lemma SelectionIsRight(nodes: seq<NodeStatus>, count: int)
    ensures ChosenWell(nodes, Selection(nodes, count))
  {
    if count > 0 {
      WithHealthIs(nodes, true);
      WithHealthIs(nodes, false);
      hide WithHealth;
      PickedIsRight(nodes, WithHealth(nodes, false), WithHealth(nodes, true), count);
    }
  }

  lemma PickedIsRight(nodes: seq<NodeStatus>, unhealthy: seq<nat>, healthy: seq<nat>, count: nat)
    requires Ascending(unhealthy, |nodes|) && Ascending(healthy, |nodes|)
    requires forall j | 0 <= j < |nodes| :: j in unhealthy <==> !nodes[j].healthy
    requires forall j | 0 <= j < |nodes| :: j in healthy <==> nodes[j].healthy
    ensures ChosenWell(nodes, Picked(unhealthy, healthy, count))
  {
    var selected := Picked(unhealthy, healthy, count);
    forall x, j | x in selected && 0 <= j < |nodes| && j !in selected
      ensures nodes[x].healthy ==> nodes[j].healthy && j < x
      ensures !nodes[x].healthy && !nodes[j].healthy ==> x < j
    {
      var p :| 0 <= p < |selected| && selected[p] == x;
      if nodes[j].healthy {
        var q :| 0 <= q < |healthy| && healthy[q] == j;
        PicksHealthy(unhealthy, healthy, count, q);
      } else {
        var q :| 0 <= q < |unhealthy| && unhealthy[q] == j;
        PicksUnhealthy(unhealthy, healthy, count, q);
      }
    }
  }

  lemma PicksUnhealthy(unhealthy: seq<nat>, healthy: seq<nat>, count: nat, q: nat)
    requires q < |unhealthy|
    ensures q < count ==> unhealthy[q] in Picked(unhealthy, healthy, count)
  {
    if q < count { assert Picked(unhealthy, healthy, count)[q] == unhealthy[q]; }
  }

  lemma PicksHealthy(unhealthy: seq<nat>, healthy: seq<nat>, count: nat, q: nat)
    requires q < |healthy|
    ensures |unhealthy| + |healthy| - q <= count ==> healthy[q] in Picked(unhealthy, healthy, count)
  {
    if |unhealthy| + |healthy| - q <= count {
      assert Picked(unhealthy, healthy, count)[|unhealthy| + |healthy| - 1 - q] == healthy[q];
    }
  }

  // ---- Removing them ---------------------------------------------------------

  datatype Decommission = Decommission(nodeFound: bool, nodeDeleteOk: bool, serverDeleteOk: bool)

  function DecommissionSteps(name: string, d: Decommission): seq<Step> {
    [Do(Drained(name))] +
    (if d.nodeFound && d.nodeDeleteOk then [Do(NodeObjectDeleted(name))] else []) +
    if name != "" then [DeleteEffect(name, d.serverDeleteOk)] else []
  }

  predicate Decommissioned(name: string, d: Decommission) {
    name == "" || d.serverDeleteOk
  }

  function DownSteps(names: seq<string>, ds: seq<Decommission>, cap: nat): seq<Step>
    requires |names| == |ds|
  {
    if names == [] || cap == 0 then []
    else
      DecommissionSteps(names[0], ds[0]) +
      DownSteps(names[1..], ds[1..], if Decommissioned(names[0], ds[0]) then cap - 1 else cap)
  }

  /** How many removals succeed before the cap stops the loop. */
  function DownCount(names: seq<string>, ds: seq<Decommission>, cap: nat): (n: nat)
    requires |names| == |ds|
    ensures n <= |names| && n <= cap
  {
    if names == [] || cap == 0 then 0
    else if Decommissioned(names[0], ds[0]) then 1 + DownCount(names[1..], ds[1..], cap - 1)
    else DownCount(names[1..], ds[1..], cap)
  }

  /** The workers whose server is gone. */
  function Deleted(names: seq<string>, ds: seq<Decommission>, cap: nat): set<string>
    requires |names| == |ds|
  {
    if names == [] || cap == 0 then {}
    else if Decommissioned(names[0], ds[0]) then {names[0]} + Deleted(names[1..], ds[1..], cap - 1)
    else Deleted(names[1..], ds[1..], cap)
  }

  /** The workers dropped from the list: the first DownCount of the selection. */
  function Dropped(names: seq<string>, ds: seq<Decommission>, cap: nat): set<string>
    requires |names| == |ds|
  {
    set n | n in names[..DownCount(names, ds, cap)]
  }

  lemma {:induction false} DeletedAreNamed(names: seq<string>, ds: seq<Decommission>, cap: nat)
    requires |names| == |ds|
    ensures forall n | n in Deleted(names, ds, cap) :: n in names
  {
    if names != [] && cap > 0 {
      DeletedAreNamed(names[1..], ds[1..], if Decommissioned(names[0], ds[0]) then cap - 1 else cap);
    }
  }

  /** As many entries are dropped as servers are deleted. */
  lemma {:induction false} DropsAsManyAsItDeletes(names: seq<string>, ds: seq<Decommission>, cap: nat)
    requires |names| == |ds| && Distinct(names)
    ensures |Deleted(names, ds, cap)| == DownCount(names, ds, cap) == |Dropped(names, ds, cap)|
  {
    DistinctCount(names[..DownCount(names, ds, cap)]);
    if names != [] && cap > 0 {
      var c := if Decommissioned(names[0], ds[0]) then cap - 1 else cap;
      DropsAsManyAsItDeletes(names[1..], ds[1..], c);
      DeletedAreNamed(names[1..], ds[1..], c);
    }
  }

  /** How many removals are attempted. */
  function Attempted(names: seq<string>, ds: seq<Decommission>, cap: nat): (n: nat)
    requires |names| == |ds|
    ensures n <= |names|
  {
    if names == [] || cap == 0 then 0
    else 1 + Attempted(names[1..], ds[1..], if Decommissioned(names[0], ds[0]) then cap - 1 else cap)
  }

  ghost predicate NoFailureBeforeSuccess(names: seq<string>, ds: seq<Decommission>, cap: nat)
    requires |names| == |ds|
  {
    forall i, j | 0 <= i < j < Attempted(names, ds, cap) && Decommissioned(names[j], ds[j]) ::
      Decommissioned(names[i], ds[i])
  }

  lemma {:induction false} NoSuccess(names: seq<string>, ds: seq<Decommission>, cap: nat)
    requires |names| == |ds|
    ensures DownCount(names, ds, cap) == 0 <==>
            forall j | 0 <= j < Attempted(names, ds, cap) :: !Decommissioned(names[j], ds[j])
  {
    if names != [] && cap > 0 && !Decommissioned(names[0], ds[0]) {
      NoSuccess(names[1..], ds[1..], cap);
      var n := Attempted(names[1..], ds[1..], cap);
      assert forall j | 0 <= j < n :: names[1..][j] == names[j + 1] && ds[1..][j] == ds[j + 1];
      assert forall j | 1 <= j < n + 1 :: names[j] == names[1..][j - 1] && ds[j] == ds[1..][j - 1];
    }
  }

  /** The entries dropped are those of the deleted servers exactly when no
      failed removal precedes a successful one. */
  lemma {:induction false} DropsWhatItDeletes(names: seq<string>, ds: seq<Decommission>, cap: nat)
    requires |names| == |ds| && Distinct(names)
    ensures Dropped(names, ds, cap) == Deleted(names, ds, cap) <==> NoFailureBeforeSuccess(names, ds, cap)
  {
    if names != [] && cap > 0 {
      var t, u := names[1..], ds[1..];
      var ok := Decommissioned(names[0], ds[0]);
      var c := if ok then cap - 1 else cap;
      DeletedAreNamed(t, u, c);
      TailOrder(names, ds, cap);
      if ok {
        DropsWhatItDeletes(t, u, c);
        DroppedHead(names, ds, cap);
        hide Dropped, NoFailureBeforeSuccess;
      } else {
        hide NoFailureBeforeSuccess;
        NoSuccess(t, u, c);
        DroppedAfterFailure(names, ds, cap);
      }
    }
  }

  lemma DroppedAfterFailure(names: seq<string>, ds: seq<Decommission>, cap: nat)
    requires |names| == |ds| && Distinct(names) && names != [] && cap > 0 && !Decommissioned(names[0], ds[0])
    ensures Dropped(names, ds, cap) == Deleted(names, ds, cap) <==> DownCount(names[1..], ds[1..], cap) == 0
  {
    var t, u := names[1..], ds[1..];
    var n := DownCount(t, u, cap);
    assert Deleted(names, ds, cap) == Deleted(t, u, cap) && DownCount(names, ds, cap) == n;
    DropsAsManyAsItDeletes(t, u, cap);
    assert names[0] !in t && Distinct(t);
    DeletedAreNamed(t, u, cap);
    hide Deleted, DownCount, Distinct;
    if n > 0 {
      assert names[..n][0] == names[0];
    }
  }

  lemma DroppedHead(names: seq<string>, ds: seq<Decommission>, cap: nat)
    requires |names| == |ds| && Distinct(names) && names != [] && cap > 0 && Decommissioned(names[0], ds[0])
    ensures Dropped(names, ds, cap) == {names[0]} + Dropped(names[1..], ds[1..], cap - 1)
    ensures names[0] !in Dropped(names[1..], ds[1..], cap - 1)
    ensures names[0] !in Deleted(names[1..], ds[1..], cap - 1)
  {
    DeletedAreNamed(names[1..], ds[1..], cap - 1);
    var n := DownCount(names[1..], ds[1..], cap - 1);
    assert names[..n + 1] == [names[0]] + names[1..][..n];
  }

  lemma TailOrder(names: seq<string>, ds: seq<Decommission>, cap: nat)
    requires |names| == |ds| && names != [] && cap > 0
    ensures var ok, t, u := Decommissioned(names[0], ds[0]), names[1..], ds[1..];
            NoFailureBeforeSuccess(names, ds, cap) <==>
            if ok then NoFailureBeforeSuccess(t, u, cap - 1)
            else forall j | 0 <= j < Attempted(t, u, cap) :: !Decommissioned(t[j], u[j])
  {
    var t, u := names[1..], ds[1..];
    var n := Attempted(t, u, if Decommissioned(names[0], ds[0]) then cap - 1 else cap);
    assert Attempted(names, ds, cap) == n + 1;
    assert forall j | 0 <= j < n :: t[j] == names[j + 1] && u[j] == ds[j + 1];
    assert forall j | 1 <= j < n + 1 :: names[j] == t[j - 1] && ds[j] == u[j - 1];
  }

  /** With the first removal failing and the second succeeding, the wrong entry goes. */
  lemma WrongEntryDropped()
    ensures var names, ds := ["w-a", "w-b"], [Decommission(true, true, false), Decommission(true, true, true)];
            && Deleted(names, ds, 2) == {"w-b"}
            && Dropped(names, ds, 2) == {"w-a"}
  {
    var names, ds := ["w-a", "w-b"], [Decommission(true, true, false), Decommission(true, true, true)];
    assert names[1..] == ["w-b"] && ds[1..] == [ds[1]] && names[1..][1..] == [];
    assert DownCount(names[1..], ds[1..], 2) == 1 && Deleted(names[1..], ds[1..], 2) == {"w-b"};
    assert names[..1] == ["w-a"];
  }

  /** With every deletion succeeding the loop removes as many as the cap allows. */
  lemma {:induction false} AllSucceed(names: seq<string>, ds: seq<Decommission>, cap: nat)
    requires |names| == |ds| && forall d | d in ds :: d.serverDeleteOk
    ensures DownCount(names, ds, cap) == Min(cap, |names|)
    ensures NoFailureBeforeSuccess(names, ds, cap)
  {
    if names != [] && cap > 0 {
      assert ds[0] in ds;
      AllSucceed(names[1..], ds[1..], cap - 1);
    }
    assert forall j | 0 <= j < |ds| :: ds[j] in ds;
  }

  /** So the entries dropped are then those of the workers that are gone. */
  lemma AllDropped(names: seq<string>, ds: seq<Decommission>, cap: nat)
    requires |names| == |ds| && Distinct(names) && forall d | d in ds :: d.serverDeleteOk
    ensures Dropped(names, ds, cap) == Deleted(names, ds, cap)
    ensures |Deleted(names, ds, cap)| == Min(cap, |names|)
    ensures forall n | n in Deleted(names, ds, cap) :: n in names
  {
    hide Dropped, Deleted, DownCount, NoFailureBeforeSuccess, Distinct;
    AllSucceed(names, ds, cap);
    DropsWhatItDeletes(names, ds, cap);
    DropsAsManyAsItDeletes(names, ds, cap);
    DeletedAreNamed(names, ds, cap);
  }
}
