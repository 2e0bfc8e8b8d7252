/** Replacing one unhealthy control plane, and what it does to the etcd quorum. */
module ControlPlaneHealing {
  import opened Nodes
  import opened Steps
  import opened NodeGroups
  import opened Provisioning
  import opened Interleaving
  import opened Health
  import opened Healing
  import opened WorkerPass

  // An etcd member is identified by its name; the endpoint is a private address.
  datatype Member = Member(name: string, endpoint: string)

  // The answers one replacement meets: Talos clients present, the member list
  // (None when it cannot be read), the removal, and the rest as for a worker.
  datatype CPHeal = CPHeal(hasClient: bool, listing: Option<seq<Member>>, removeOk: bool, rest: Heal)

  predicate IsMemberOf(m: Member, name: string, privateIP: string) {
    m.name == name || m.endpoint == privateIP
  }

  function FirstMember(ms: seq<Member>, name: string, privateIP: string): (i: nat)
    ensures i <= |ms| && (i < |ms| ==> IsMemberOf(ms[i], name, privateIP))
    ensures forall j | 0 <= j < i :: !IsMemberOf(ms[j], name, privateIP)
  {
    if ms == [] || IsMemberOf(ms[0], name, privateIP) then 0 else 1 + FirstMember(ms[1..], name, privateIP)
  }

  /** Private address of the first healthy control plane that has one, or "". */
  function HealthyIP(list: seq<NodeStatus>): string {
    if list == [] then ""
    else if list[0].healthy && list[0].privateIP != "" then list[0].privateIP
    else HealthyIP(list[1..])
  }

  /** The member that is removed. Best effort: any obstacle means none is. */
  function RemovedMember(list: seq<NodeStatus>, name: string, privateIP: string, h: CPHeal): Option<string> {
    if !h.hasClient || privateIP == "" || HealthyIP(list) == "" || h.listing == None then None
    else
      var i := FirstMember(h.listing.value, name, privateIP);
      if i < |h.listing.value| && h.removeOk then Some(h.listing.value[i].name) else None
  }

  function EtcdSteps(list: seq<NodeStatus>, name: string, privateIP: string, h: CPHeal): seq<Step> {
    var mark := Update(PhaseUpdate(name, RemovingFromEtcd), h.rest.at);
    var member := RemovedMember(ApplyList(list, mark), name, privateIP, h);
    [mark] + if member.Some? then [Do(EtcdMemberRemoved(name, member.value))] else []
  }

  function ReprovisionSteps(name: string, h: Heal): seq<Step> {
    if NodeObjectRefused(h) then []
    else [Remove(name)] + if h.prepared then AttemptSteps(ControlPlane, h.attempt) else []
  }

  function ReplaceCPSteps(list: seq<NodeStatus>, victim: NodeStatus, h: CPHeal): seq<Step> {
    EtcdSteps(list, victim.name, victim.privateIP, h) +
    (DeleteSteps(victim.name, h.rest) + ReprovisionSteps(victim.name, h.rest))
  }

  // ---- The etcd cluster ---------------------------------------------------------

  // The membership, and the names of the members that run and vote.
  datatype Etcd = Etcd(members: seq<Member>, live: set<string>)

  function MemberNames(ms: seq<Member>): set<string> {
    set i | 0 <= i < |ms| :: ms[i].name
  }

  function LiveVoters(e: Etcd): set<string> {
    MemberNames(e.members) * e.live
  }

  predicate Quorate(e: Etcd) {
    2 * |LiveVoters(e)| > |e.members|
  }

  function DropMember(ms: seq<Member>, name: string): (r: seq<Member>) {
    if ms == [] then []
    else
      var k := |ms| - 1;
      DropMember(ms[..k], name) + if ms[k].name == name then [] else [ms[k]]
  }

  lemma NamesConcat(a: seq<Member>, b: seq<Member>)
    ensures MemberNames(a + b) == MemberNames(a) + MemberNames(b)
  {
    var c := a + b;
    forall n ensures n in MemberNames(c) <==> n in MemberNames(a) + MemberNames(b) {
      if n in MemberNames(a) { var i :| 0 <= i < |a| && a[i].name == n; assert c[i].name == n; }
      if n in MemberNames(b) { var i :| 0 <= i < |b| && b[i].name == n; assert c[|a| + i].name == n; }
    }
  }

  /** Removing a member leaves every other name and shortens the membership. */
  lemma {:induction false} DropMemberIs(ms: seq<Member>, name: string)
    ensures MemberNames(DropMember(ms, name)) == MemberNames(ms) - {name}
    ensures |DropMember(ms, name)| <= |ms| && (name in MemberNames(ms) ==> |DropMember(ms, name)| < |ms|)
  {
    if ms != [] {
      var k := |ms| - 1;
      DropMemberIs(ms[..k], name);
      assert ms == ms[..k] + [ms[k]] && MemberNames([ms[k]]) == {ms[k].name};
      NamesConcat(ms[..k], [ms[k]]);
      NamesConcat(DropMember(ms[..k], name), [ms[k]]);
      hide MemberNames;
      assert DropMember(ms[..k], name) + [] == DropMember(ms[..k], name);
    }
  }

  /** A node joins as a member when its configuration is applied, and votes once
      it is ready; deleting its server silences it without removing the member. */
  function EtcdStep(e: Etcd, s: Step): Etcd {
    match s
    case Do(EtcdMemberRemoved(_, m)) => e.(members := DropMember(e.members, m))
    case Do(ConfigApplied(n)) => e.(members := e.members + [Member(n, "")])
    case Do(NodeBecameReady(n)) => e.(live := e.live + {n})
    case Do(ServerDeleted(n)) => e.(live := e.live - {n})
    case _ => e
  }

  function RunEtcd(e: Etcd, steps: seq<Step>): Etcd {
    if steps == [] then e else EtcdStep(RunEtcd(e, steps[..|steps| - 1]), steps[|steps| - 1])
  }

  lemma {:induction false} RunEtcdConcat(e: Etcd, a: seq<Step>, b: seq<Step>)
    ensures RunEtcd(e, a + b) == RunEtcd(RunEtcd(e, a), b)
  {
    if b == [] {
      assert a + b == a;
    } else {
      RunEtcdConcat(e, a, b[..|b| - 1]);
      assert (a + b)[..|a + b| - 1] == a + b[..|b| - 1];
    }
  }

  lemma EtcdOne(e: Etcd, s: Step)
    ensures RunEtcd(e, [s]) == EtcdStep(e, s)
  {
    assert RunEtcd(e, [s][..0]) == e;
  }

  // ---- Quorum at every moment -----------------------------------------------------

  // The step silences and expels none of these voters.
  predicate Spares(s: Step, voters: set<string>) {
    match s
    case Do(EtcdMemberRemoved(_, m)) => m !in voters
    case Do(ServerDeleted(n)) => n !in voters
    case _ => true
  }

  function Joins(steps: seq<Step>): nat {
    if steps == [] then 0
    else
      var s := steps[|steps| - 1];
      Joins(steps[..|steps| - 1]) + if s.Do? && s.effect.ConfigApplied? then 1 else 0
  }

  lemma {:induction false} JoinsConcat(a: seq<Step>, b: seq<Step>)
    ensures Joins(a + b) == Joins(a) + Joins(b)
  {
    if b == [] {
      assert a + b == a;
    } else {
      JoinsConcat(a, b[..|b| - 1]);
      assert (a + b)[..|a + b| - 1] == a + b[..|b| - 1];
    }
  }

  lemma VoterStep(e: Etcd, s: Step, voters: set<string>)
    requires voters <= LiveVoters(e) && Spares(s, voters)
    ensures voters <= LiveVoters(EtcdStep(e, s))
    ensures |EtcdStep(e, s).members| <= |e.members| + if s.Do? && s.effect.ConfigApplied? then 1 else 0
  {
    if s.Do? && s.effect.EtcdMemberRemoved? {
      DropMemberIs(e.members, s.effect.member);
    } else if s.Do? && s.effect.ConfigApplied? {
      NamesConcat(e.members, [Member(s.effect.name, "")]);
    }
  }

  lemma {:induction false} VotersStay(e: Etcd, steps: seq<Step>, voters: set<string>)
    requires voters <= LiveVoters(e) && forall s | s in steps :: Spares(s, voters)
    ensures voters <= LiveVoters(RunEtcd(e, steps))
    ensures |RunEtcd(e, steps).members| <= |e.members| + Joins(steps)
  {
    hide LiveVoters, Spares, EtcdStep;
    if steps != [] {
      var k := |steps| - 1;
      VotersStay(e, steps[..k], voters);
      assert steps[k] in steps;
      VoterStep(RunEtcd(e, steps[..k]), steps[k], voters);
    }
  }

  /** The gate the operator checks before a replacement. */
  predicate Gate(ready: nat, total: nat) {
    ready >= total / 2 + 1
  }

  function ReadyNames(list: seq<NodeStatus>): set<string> {
    set i | 0 <= i < |list| && list[i].healthy :: list[i].name
  }

  lemma ReadySnoc(list: seq<NodeStatus>, n: NodeStatus)
    ensures ReadyNames(list + [n]) == ReadyNames(list) + if n.healthy then {n.name} else {}
    ensures ReadyNames(list) <= Names(list)
  {
    var all := list + [n];
    forall x ensures x in ReadyNames(all) <==> x in ReadyNames(list) + if n.healthy then {n.name} else {} {
      if x in ReadyNames(list) {
        var i :| 0 <= i < |list| && list[i].healthy && list[i].name == x;
        assert all[i] == list[i];
      }
      if n.healthy && x == n.name { assert all[|list|] == n; }
    }
  }

  lemma {:induction false} ReadyCount(list: seq<NodeStatus>)
    requires UniqueNames(list)
    ensures |ReadyNames(list)| == CountReady(list)
  {
    if list != [] {
      var k := |list| - 1;
      ReadyCount(list[..k]);
      assert list == list[..k] + [list[k]];
      ReadySnoc(list[..k], list[k]);
      assert list[k].name !in Names(list[..k]);
      hide ReadyNames, UniqueNames, Names;
    }
  }

  lemma MajorityStays(e: Etcd, voters: set<string>, total: nat)
    requires voters <= LiveVoters(e) && Gate(|voters|, total) && |e.members| <= total
    ensures Quorate(e)
  {
    assert LiveVoters(e) == voters + (LiveVoters(e) - voters);
  }

  // Membership is the spec count, Ready nodes vote, the victim is listed and not
  // Ready, and no Ready node answers to the victim's name or address.
  ghost predicate Replaceable(e: Etcd, list: seq<NodeStatus>, victim: NodeStatus, total: nat) {
    && UniqueNames(list) && victim in list && !victim.healthy
    && |e.members| == total && Gate(CountReady(list), total)
    && ReadyNames(list) <= LiveVoters(e)
    && forall m | m in e.members && IsMemberOf(m, victim.name, victim.privateIP) :: m.name !in ReadyNames(list)
  }

  lemma VictimNotReady(list: seq<NodeStatus>, victim: NodeStatus)
    requires UniqueNames(list) && victim in list && !victim.healthy
    ensures victim.name !in ReadyNames(list)
  {
  }

  lemma TailSpares(name: string, h: Heal, voters: set<string>)
    requires (name == "" || name !in voters) && h.attempt.name !in voters
    ensures forall s | s in DeleteSteps(name, h) + ReprovisionSteps(name, h) :: Spares(s, voters)
    ensures Joins(DeleteSteps(name, h) + ReprovisionSteps(name, h)) <= 1
  {
    AttemptSpares(h.attempt, voters);
    DeleteSpares(name, h, voters);
    hide AttemptSteps, DeleteSteps;
    JoinsConcat(DeleteSteps(name, h), ReprovisionSteps(name, h));
    var r := [Remove(name)];
    assert Joins(r) == Joins(r[..0]) == 0;
    JoinsConcat(r, AttemptSteps(ControlPlane, h.attempt));
    assert r + [] == r;
  }

  lemma DeleteSpares(name: string, h: Heal, voters: set<string>)
    requires name == "" || name !in voters
    ensures forall s | s in DeleteSteps(name, h) :: Spares(s, voters)
    ensures Joins(DeleteSteps(name, h)) == 0
  {
    NoJoins(DeleteSteps(name, h));
  }

  lemma {:induction false} NoJoins(steps: seq<Step>)
    requires forall s | s in steps :: !(s.Do? && s.effect.ConfigApplied?)
    ensures Joins(steps) == 0
  {
    if steps != [] {
      NoJoins(steps[..|steps| - 1]);
      assert steps[|steps| - 1] in steps;
    }
  }

  lemma AttemptSpares(a: Attempt, voters: set<string>)
    requires a.name !in voters
    ensures forall s | s in AttemptSteps(ControlPlane, a) :: Spares(s, voters)
    ensures Joins(AttemptSteps(ControlPlane, a)) <= 1
  {
    FailureSpares(a, voters);
    ProvisionSpares(a, voters);
    ConfigureSpares(a, voters);
    var cfg := ConfigureSteps(ControlPlane, a);
    NoJoins(ProvisionSteps(a));
    hide ProvisionSteps, ConfigureSteps;
    JoinsConcat(ProvisionSteps(a), SetupSteps(ControlPlane, a));
    if a.server.Provisioned? {
      NoJoins([AddressStep(a)]);
      JoinsConcat([AddressStep(a)], cfg);
    }
  }

  lemma ProvisionSpares(a: Attempt, voters: set<string>)
    requires a.name !in voters
    ensures forall s | s in ProvisionSteps(a) :: Spares(s, voters) && !(s.Do? && s.effect.ConfigApplied?)
  {
    FailureSpares(a, voters);
    hide FailureSteps;
  }

  lemma ConfigureSpares(a: Attempt, voters: set<string>)
    requires a.name !in voters
    ensures forall s | s in ConfigureSteps(ControlPlane, a) :: Spares(s, voters)
    ensures Joins(ConfigureSteps(ControlPlane, a)) <= 1
  {
    FailureSpares(a, voters);
    hide FailureSteps;
    var wait, cfg := WaitSteps(ControlPlane, a), ConfigureSteps(ControlPlane, a);
    assert forall s | s in wait :: Spares(s, voters) && !(s.Do? && s.effect.ConfigApplied?);
    hide WaitSteps;
    if a.config == NotReadyInTime || a.config == Configured {
      var apply := [Phase(a, ApplyingTalosConfig), Do(ConfigApplied(a.name))];
      assert apply[..1][..0] == [] && Joins(apply[..1]) == 0 && Joins(apply) == 1;
      NoJoins(wait);
      hide Joins;
      JoinsConcat(apply, wait);
    } else {
      NoJoins(cfg);
    }
  }

  lemma FailureSpares(a: Attempt, voters: set<string>)
    requires a.name !in voters
    ensures forall s | s in FailureSteps(a) :: Spares(s, voters) && !(s.Do? && s.effect.ConfigApplied?)
  {
  }

  /** Healing a control plane keeps etcd quorate at every moment, whatever fails
      after the member was removed. */
  lemma HealingKeepsQuorum(e: Etcd, list: seq<NodeStatus>, victim: NodeStatus, h: CPHeal, total: nat, moment: nat)
    requires Replaceable(e, list, victim, total)
    requires h.rest.attempt.name !in Names(list)
    requires h.listing == Some(e.members)
    requires RemovedMember(ApplyList(list, Update(PhaseUpdate(victim.name, RemovingFromEtcd), h.rest.at)),
                           victim.name, victim.privateIP, h).Some?
    requires moment <= |ReplaceCPSteps(list, victim, h)|
    ensures Quorate(RunEtcd(e, ReplaceCPSteps(list, victim, h)[..moment]))
  {
    var mark := Update(PhaseUpdate(victim.name, RemovingFromEtcd), h.rest.at);
    var member := RemovedMember(ApplyList(list, mark), victim.name, victim.privateIP, h).value;
    var removal := Do(EtcdMemberRemoved(victim.name, member));
    var tail := DeleteSteps(victim.name, h.rest) + ReprovisionSteps(victim.name, h.rest);
    var steps, voters := ReplaceCPSteps(list, victim, h), ReadyNames(list);
    assert steps == [mark, removal] + tail;
    assert member in MemberNames(e.members) && member !in voters by {
      var i := FirstMember(e.members, victim.name, victim.privateIP);
      assert member == e.members[i].name && e.members[i] in e.members;
    }
    hide ReplaceCPSteps, RemovedMember, DeleteSteps, ReprovisionSteps, ApplyList;
    ReadyCount(list);
    VictimNotReady(list, victim);
    assert h.rest.attempt.name !in voters;
    TailSpares(victim.name, h.rest, voters);
    MomentIsQuorate(e, mark, removal, tail, voters, total, moment);
  }

  lemma MomentIsQuorate(e: Etcd, mark: Step, removal: Step, tail: seq<Step>, voters: set<string>, total: nat,
                        moment: nat)
    requires mark.Update? && removal.Do? && removal.effect.EtcdMemberRemoved?
    requires removal.effect.member in MemberNames(e.members) && removal.effect.member !in voters
    requires voters <= LiveVoters(e) && |e.members| == total && Gate(|voters|, total)
    requires (forall s | s in tail :: Spares(s, voters)) && Joins(tail) <= 1
    requires moment <= 2 + |tail|
    ensures Quorate(RunEtcd(e, ([mark, removal] + tail)[..moment]))
  {
    var steps, head := [mark, removal] + tail, [mark, removal];
    hide RunEtcd, LiveVoters, Spares, Joins, MemberNames, Quorate, Gate;
    RemovedFirst(e, mark, removal, voters);
    if moment < 2 {
      assert steps[..moment] == if moment == 0 then [] else [mark];
      MajorityStays(e, voters, total);
    } else {
      assert steps[..moment] == head + tail[..moment - 2];
      RunEtcdConcat(e, head, tail[..moment - 2]);
      PartSpares(tail, moment - 2, voters);
      TailIsQuorate(RunEtcd(e, head), tail[..moment - 2], voters, total);
    }
  }

  lemma PartSpares(tail: seq<Step>, n: nat, voters: set<string>)
    requires n <= |tail| && forall s | s in tail :: Spares(s, voters)
    ensures forall s | s in tail[..n] :: Spares(s, voters)
    ensures Joins(tail[..n]) <= Joins(tail)
  {
    hide Spares, Joins;
    assert tail == tail[..n] + tail[n..];
    JoinsConcat(tail[..n], tail[n..]);
  }

  lemma TailIsQuorate(e: Etcd, part: seq<Step>, voters: set<string>, total: nat)
    requires voters <= LiveVoters(e) && |e.members| < total && Gate(|voters|, total)
    requires (forall s | s in part :: Spares(s, voters)) && Joins(part) <= 1
    ensures Quorate(RunEtcd(e, part))
  {
    hide RunEtcd, LiveVoters, Spares, Joins, Quorate, Gate;
    VotersStay(e, part, voters);
    MajorityStays(RunEtcd(e, part), voters, total);
  }

  lemma RemovedFirst(e: Etcd, mark: Step, removal: Step, voters: set<string>)
    requires mark.Update? && removal.Do? && removal.effect.EtcdMemberRemoved?
    requires removal.effect.member in MemberNames(e.members) && removal.effect.member !in voters
    requires voters <= LiveVoters(e)
    ensures RunEtcd(e, []) == RunEtcd(e, [mark]) == e
    ensures var after := RunEtcd(e, [mark, removal]);
            voters <= LiveVoters(after) && |after.members| < |e.members|
  {
    EtcdOne(e, mark);
    EtcdOne(e, removal);
    assert [mark, removal] == [mark] + [removal];
    RunEtcdConcat(e, [mark], [removal]);
    DropMemberIs(e.members, removal.effect.member);
  }

  // ---- The operator's methods ---------------------------------------------------------

  method FindHealthyControlPlaneIP(g: NodeGroup) returns (ip: string)
    requires g.Valid()
    ensures ip == HealthyIP(g.List())
  {
    var nodes, i := g.backing[..g.length], 0;
    assert nodes[0..] == nodes;
    while i < |nodes|
      invariant i <= |nodes| && HealthyIP(nodes) == HealthyIP(nodes[i..])
    {
      if nodes[i].healthy && nodes[i].privateIP != "" {
        return nodes[i].privateIP;
      }
      i := i + 1;
    }
    return "";
  }

  method FindMember(ms: seq<Member>, name: string, privateIP: string) returns (i: nat)
    ensures i == FirstMember(ms, name, privateIP)
  {
    i := 0;
    assert ms[0..] == ms;
    while i < |ms| && ms[i].name != name && ms[i].endpoint != privateIP
      invariant i <= |ms| && FirstMember(ms, name, privateIP) == i + FirstMember(ms[i..], name, privateIP)
    {
      i := i + 1;
    }
  }

  lemma PointedAddressHolds(st: State, p: nat, phase: NodePhase, at: nat)
    requires Ok(st.mem) && st.mem.aliased && p < st.mem.len
    ensures var m := UpdateMem(st.mem, PhaseUpdate(st.mem.pinned[p].name, phase), at);
            && |m.pinned| == |st.mem.pinned| && m.pinned[p].name == st.mem.pinned[p].name
            && m.pinned[p].privateIP == st.mem.pinned[p].privateIP
  {
    var n := st.mem.pinned[p].name;
    assert Contents(st.mem)[p].name == n;
    assert Find(Contents(st.mem), n) <= p;
  }

  method RemoveFromEtcd(g: NodeGroup, p: nat, h: CPHeal)
    requires g.Valid() && g.pins == g.backing && p < g.length
    modifies g, g.backing
    ensures g.Did(EtcdSteps(old(g.List()), old(g.pins[p].name), old(g.pins[p].privateIP), h))
    ensures g.pins[p].name == old(g.pins[p].name)
  {
    hide Run, UpdateMem;
    ghost var before, x := g.View(), g.pins[p].name;
    var mark := PhaseUpdate(g.pins[p].name, RemovingFromEtcd);
    PointedAddressHolds(before, p, RemovingFromEtcd, h.rest.at);
    ApplyRefinesList(before, Update(mark, h.rest.at));
    RunConcat(g.start, g.trace, [Update(mark, h.rest.at)]);
    RunOne(before, Update(mark, h.rest.at));
    g.UpdateNodePhase(mark, h.rest.at);
    assert g.View() == Apply(before, Update(mark, h.rest.at));
    hide ApplyList;
    if !h.hasClient || g.pins[p].privateIP == "" {
      return;
    }
    var healthyIP := FindHealthyControlPlaneIP(g);
    if healthyIP == "" || h.listing == None {
      return;
    }
    var i := FindMember(h.listing.value, g.pins[p].name, g.pins[p].privateIP);
    if i < |h.listing.value| && h.removeOk {
      g.Emit(EtcdMemberRemoved(g.pins[p].name, h.listing.value[i].name));
    }
  }

  method ReplaceControlPlane(g: NodeGroup, p: nat, h: CPHeal) returns (ok: bool)
    requires g.Valid() && g.pins == g.backing && p < g.length
    modifies g, g.backing
    ensures g.Did(ReplaceCPSteps(old(g.List()), old(g.pins[p]), h))
    ensures ok == ReplaceSucceeds(h.rest)
  {
    hide Run, EtcdSteps, DeleteSteps, AttemptSteps;
    ghost var x := g.pins[p].name;
    RemoveFromEtcd(g, p, h);
    PointedNameHolds(g.start, g.trace, Update(PhaseUpdate(x, DeletingServer), h.rest.at), p, x);
    ok := DeleteNodeAndServer(g, p, h.rest, x);
    if !ok {
      return false;
    }
    g.RemoveNodeFromStatus(g.pins[p].name);
    if !h.rest.prepared {
      return false;
    }
    ok := ProvisionAndConfigureNode(g, ControlPlane, h.rest.attempt);
  }

  /** What the replacement check does: nothing without a node past the threshold
      or without the quorum, else it replaces the first such node. */
  function MaybeReplaceSteps(list: seq<NodeStatus>, ready: nat, total: nat, threshold: int, now: nat,
                             h: CPHeal): seq<Step>
  {
    PointersAreExact(list, threshold, now);
    var ptrs := PastThresholdPointers(list, threshold, now);
    if ptrs == [] || !Gate(ready, total) then [] else ReplaceCPSteps(list, list[ptrs[0]], h)
  }

  method ReplaceUnhealthyCPIfNeeded(g: NodeGroup, ready: nat, total: nat, threshold: int, now: nat, h: CPHeal)
    returns (requeue: Requeue, ok: bool)
    requires g.Valid()
    modifies g, g.backing
    ensures g.Valid()
    ensures g.effects == old(g.effects) + Effects(MaybeReplaceSteps(old(g.List()), ready, total, threshold, now, h))
    ensures g.List() == RunList(old(g.List()), MaybeReplaceSteps(old(g.List()), ready, total, threshold, now, h))
    ensures ready < total / 2 + 1 ==> g.List() == old(g.List()) && g.effects == old(g.effects)
    ensures var none := PastThresholdPointers(old(g.List()), threshold, now) == [];
            && ok == (none || !Gate(ready, total) || ReplaceSucceeds(h.rest))
            && requeue == if none || !ok then NoRequeue else Default
  {
    hide Run, RunList, ReplaceCPSteps, PastThresholdPointers;
    var ptrs := FindUnhealthyNodes(g, threshold, now);
    NoSteps(g.List());
    PointersAreExact(g.List(), threshold, now);
    if ptrs == [] {
      return NoRequeue, true;
    }
    var quorumNeeded := total / 2 + 1;
    if ready < quorumNeeded {
      return Default, true;
    }
    ghost var trace, before := g.trace, g.View();
    assert Contents(before.mem) == g.List();
    ok := ReplaceControlPlane(g, ptrs[0], h);
    DidMeans(g, trace, before, MaybeReplaceSteps(old(g.List()), ready, total, threshold, now, h));
    requeue := if ok then Default else NoRequeue;
  }
}
