/** The status entry of one node and the node list as a finite map keyed by name.
    Specification level: lists are plain sequences. */
module Nodes {

  datatype Option<+T> = None | Some(value: T)

  // NoPhase is the empty string: the health check builds entries without a phase.
  datatype NodePhase =
    | NoPhase
    | CreatingServer
    | WaitingForIP
    | WaitingForTalosAPI
    | ApplyingTalosConfig
    | RebootingWithConfig
    | WaitingForK8s
    | NodeInitializing
    | Ready
    | Unhealthy
    | Draining
    | RemovingFromEtcd
    | DeletingServer
    | Failed

  datatype NodeStatus = NodeStatus(
    name: string,
    serverID: int,
    publicIP: string,
    privateIP: string,
    phase: NodePhase,
    transitionTime: Option<nat>,
    healthy: bool,
    unhealthySince: Option<nat>)

  // The zero values 0 and "" mean "leave the field alone".
  datatype NodeUpdate = NodeUpdate(name: string, serverID: int, publicIP: string, privateIP: string, phase: NodePhase)

  function PhaseUpdate(name: string, phase: NodePhase): NodeUpdate {
    NodeUpdate(name, 0, "", "", phase)
  }

  function Touch(n: NodeStatus, u: NodeUpdate, now: nat): NodeStatus {
    NodeStatus(
      n.name,
      if u.serverID != 0 then u.serverID else n.serverID,
      if u.publicIP != "" then u.publicIP else n.publicIP,
      if u.privateIP != "" then u.privateIP else n.privateIP,
      u.phase,
      if n.phase != u.phase then Some(now) else n.transitionTime,
      u.phase == Ready,
      n.unhealthySince)
  }

  function NewEntry(u: NodeUpdate, now: nat): NodeStatus {
    NodeStatus(u.name, u.serverID, u.publicIP, u.privateIP, u.phase, Some(now), u.phase == Ready, None)
  }

  /** Index of the first entry with this name, or the length when there is none. */
  function Find(s: seq<NodeStatus>, name: string): (i: nat)
    ensures i <= |s|
    ensures i < |s| ==> s[i].name == name
    ensures forall j | 0 <= j < i :: s[j].name != name
  {
    if s == [] then 0
    else if s[0].name == name then 0
    else 1 + Find(s[1..], name)
  }

  function Upsert(s: seq<NodeStatus>, u: NodeUpdate, now: nat): seq<NodeStatus> {
    var i := Find(s, u.name);
    if i < |s| then s[i := Touch(s[i], u, now)] else s + [NewEntry(u, now)]
  }

  /** Overwrite the entry with the last one and drop the last slot. */
  function SwapRemove(s: seq<NodeStatus>, name: string): seq<NodeStatus> {
    var i := Find(s, name);
    if i < |s| then s[i := s[|s| - 1]][..|s| - 1] else s
  }

  ghost predicate UniqueNames(s: seq<NodeStatus>) {
    forall i, j | 0 <= i < j < |s| :: s[i].name != s[j].name
  }

  function Names(s: seq<NodeStatus>): set<string> {
    set i | 0 <= i < |s| :: s[i].name
  }

  lemma {:induction false} NamesCount(list: seq<NodeStatus>)
    requires UniqueNames(list)
    ensures |Names(list)| == |list|
  {
    if list != [] {
      var k := |list| - 1;
      NamesCount(list[..k]);
      assert list == list[..k] + [list[k]];
      assert Names(list) == Names(list[..k]) + {list[k].name};
    }
  }

  /** The list read as a finite map: the entry stored under a name. */
  function Entry(s: seq<NodeStatus>, name: string): Option<NodeStatus> {
    var i := Find(s, name);
    if i < |s| then Some(s[i]) else None
  }

  lemma FindIs(s: seq<NodeStatus>, name: string, i: nat)
    requires i <= |s| && (i < |s| ==> s[i].name == name)
    requires forall j | 0 <= j < i :: s[j].name != name
    ensures Find(s, name) == i
  {
  }

  lemma FindUnique(s: seq<NodeStatus>, i: nat)
    requires UniqueNames(s) && i < |s|
    ensures Find(s, s[i].name) == i
  {
    FindIs(s, s[i].name, i);
  }

  lemma EntryNone(s: seq<NodeStatus>, name: string)
    ensures Entry(s, name) == None <==> name !in Names(s)
    ensures Find(s, name) == |s| <==> name !in Names(s)
  {
    var i := Find(s, name);
    if i < |s| { assert s[i].name in Names(s); }
  }

  lemma UpsertKeepsUnique(s: seq<NodeStatus>, u: NodeUpdate, now: nat)
    requires UniqueNames(s)
    ensures UniqueNames(Upsert(s, u, now))
    ensures Names(Upsert(s, u, now)) == Names(s) + {u.name}
  {
    var t, k := Upsert(s, u, now), Find(s, u.name);
    forall n ensures n in Names(t) <==> n in Names(s) + {u.name} {
      if n in Names(s) { var i :| 0 <= i < |s| && s[i].name == n; assert t[i].name == n; }
      if n in Names(t) { var i :| 0 <= i < |t| && t[i].name == n; assert i < |s| ==> s[i].name == n; }
      if n == u.name { assert t[k].name == n; }
    }
  }

  /** An upsert rewrites or adds exactly the entry of its own key. */
  lemma UpsertEntry(s: seq<NodeStatus>, u: NodeUpdate, now: nat, name: string)
    ensures Entry(Upsert(s, u, now), name) ==
            if name != u.name then Entry(s, name)
            else if Entry(s, name).Some? then Some(Touch(Entry(s, name).value, u, now))
            else Some(NewEntry(u, now))
  {
    var t, k, i := Upsert(s, u, now), Find(s, u.name), Find(s, name);
    assert forall j | 0 <= j < |s| :: t[j].name == s[j].name;
    if name != u.name && i == |s| && |t| > |s| {
      FindIs(t, name, |t|);
    } else {
      FindIs(t, name, i);
    }
  }

  lemma SwapRemoveShape(s: seq<NodeStatus>, name: string)
    ensures var k, t := Find(s, name), SwapRemove(s, name);
            && (k == |s| ==> t == s)
            && (k < |s| ==> |t| == |s| - 1 && forall j | 0 <= j < |t| :: t[j] == if j == k then s[|s| - 1] else s[j])
  {
  }

  lemma SwapRemoveKeepsUnique(s: seq<NodeStatus>, name: string)
    requires UniqueNames(s)
    ensures UniqueNames(SwapRemove(s, name))
    ensures Names(SwapRemove(s, name)) == Names(s) - {name}
  {
    var t, k := SwapRemove(s, name), Find(s, name);
    SwapRemoveShape(s, name);
    EntryNone(s, name);
    if k < |s| {
      forall n ensures n in Names(t) <==> n in Names(s) - {name} {
        if n in Names(s) - {name} {
          var i :| 0 <= i < |s| && s[i].name == n;
          assert t[if i == |s| - 1 then k else i].name == n;
        }
        if n in Names(t) {
          var i :| 0 <= i < |t| && t[i].name == n;
          assert s[if i == k then |s| - 1 else i].name == n;
        }
      }
    }
  }

  /** A swap-removal drops exactly its own key. */
  lemma SwapRemoveEntry(s: seq<NodeStatus>, name: string, other: string)
    requires UniqueNames(s)
    ensures Entry(SwapRemove(s, name), other) == if other == name then None else Entry(s, other)
  {
    var t, k, i := SwapRemove(s, name), Find(s, name), Find(s, other);
    SwapRemoveShape(s, name);
    if k < |s| {
      if other == name || i == |s| {
        FindIs(t, other, |t|);
      } else {
        FindIs(t, other, if i == |s| - 1 then k else i);
      }
    }
  }

  lemma {:induction false} CountUnique(s: seq<NodeStatus>, x: NodeStatus)
    requires UniqueNames(s)
    ensures multiset(s)[x] == if Entry(s, x.name) == Some(x) then 1 else 0
  {
    if s != [] {
      CountUnique(s[1..], x);
      assert s == [s[0]] + s[1..];
      if s[0].name == x.name {
        FindIs(s[1..], x.name, |s| - 1);
      }
    }
  }

  /** Two uniquely named lists with the same entries are permutations of each other. */
  lemma SameEntriesArePermutation(s: seq<NodeStatus>, t: seq<NodeStatus>)
    requires UniqueNames(s) && UniqueNames(t)
    requires forall n :: Entry(s, n) == Entry(t, n)
    ensures multiset(s) == multiset(t)
  {
    forall x ensures multiset(s)[x] == multiset(t)[x] {
      CountUnique(s, x);
      CountUnique(t, x);
    }
  }

  // ---- When a node entered its phase ---------------------------------------

  /** The entry of one name after a history of updates to it, newest last. */
  function AfterHistory(us: seq<NodeUpdate>, times: seq<nat>): (n: NodeStatus)
    requires |us| == |times| && us != []
    ensures n.phase == us[|us| - 1].phase
  {
    var k := |us| - 1;
    if k == 0 then NewEntry(us[0], times[0])
    else Touch(AfterHistory(us[..k], times[..k]), us[k], times[k])
  }

  /** Index of the update that last changed the phase. */
  ghost predicate LatestPhaseChange(us: seq<NodeUpdate>, c: nat) {
    c < |us|
    && (c == 0 || us[c - 1].phase != us[c].phase)
    && forall i | c <= i < |us| :: us[i].phase == us[|us| - 1].phase
  }

  /** PhaseTransitionTime is the time of the latest phase change in the history. */
  lemma {:induction false} TransitionTimeIsLatestChange(us: seq<NodeUpdate>, times: seq<nat>, c: nat)
    requires |us| == |times| && LatestPhaseChange(us, c)
    ensures AfterHistory(us, times).transitionTime == Some(times[c])
  {
    var k := |us| - 1;
    if c < k {
      TransitionTimeIsLatestChange(us[..k], times[..k], c);
    }
  }

  function Given(u: NodeUpdate, isPublic: bool): string {
    if isPublic then u.publicIP else u.privateIP
  }

  // The latest address that was given, "" if none was.
  function LatestAddress(us: seq<NodeUpdate>, isPublic: bool): string {
    if us == [] then ""
    else
      var k := |us| - 1;
      if Given(us[k], isPublic) != "" then Given(us[k], isPublic) else LatestAddress(us[..k], isPublic)
  }

  function LatestID(us: seq<NodeUpdate>): int {
    if us == [] then 0
    else
      var k := |us| - 1;
      if us[k].serverID != 0 then us[k].serverID else LatestID(us[..k])
  }

  /** After any history of updates a node is healthy exactly when the last one made it
      Ready, and carries the latest server id and addresses that were given. */
  lemma {:induction false} LatestValuesStay(us: seq<NodeUpdate>, times: seq<nat>)
    requires |us| == |times| && us != []
    ensures var n := AfterHistory(us, times);
            && (n.healthy <==> us[|us| - 1].phase == Ready) && n.unhealthySince == None
            && n.name == us[0].name && n.serverID == LatestID(us)
            && n.publicIP == LatestAddress(us, true)
            && n.privateIP == LatestAddress(us, false)
  {
    var k := |us| - 1;
    if k == 0 {
      assert us[..0] == [];
    } else {
      LatestValuesStay(us[..k], times[..k]);
    }
  }
}
