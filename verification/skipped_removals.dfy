/** Replacing a control plane when its etcd member could not be removed first: for
    which clusters, and for which sizes, the quorum gate is still enough. */
module SkippedRemovals {
  import opened Sequences
  import opened Nodes
  import opened Steps
  import opened Provisioning
  import opened Interleaving
  import opened Health
  import opened Healing
  import opened ControlPlaneHealing

  // ---- One replacement ----------------------------------------------------------------

  // The server of a node without a name is not deleted.
  function Survivors(live: set<string>, victim: string): set<string> {
    if victim == "" then live else live - {victim}
  }

  /** Without the removal, once the victim's server is gone and the replacement has
      joined, the quorum depends on the surviving voters outnumbering the rest. */
  lemma SkippedRemoval(e: Etcd, list: seq<NodeStatus>, victim: NodeStatus, h: CPHeal, total: nat)
    requires Replaceable(e, list, victim, total) && h.rest.attempt.name !in MemberNames(e.members) + e.live
    requires RemovedMember(ApplyList(list, Update(PhaseUpdate(victim.name, RemovingFromEtcd), h.rest.at)),
                           victim.name, victim.privateIP, h) == None
    requires !NodeObjectRefused(h.rest) && h.rest.serverDeleteOk && h.rest.prepared
    requires h.rest.attempt.server.Provisioned? && h.rest.attempt.config == NotReadyInTime
    ensures var after := RunEtcd(e, ReplaceCPSteps(list, victim, h));
            && |after.members| == total + 1
            && LiveVoters(after) == Survivors(LiveVoters(e), victim.name)
            && (Quorate(after) <==> 2 * |Survivors(LiveVoters(e), victim.name)| > total + 1)
  {
    SkippedRun(e, list, victim, h);
    hide RunEtcd, ReplaceCPSteps, RemovedMember, ApplyList;
    assert |e.members| == total;
    hide Replaceable;
    JoinerCounts(e, victim.name, h.rest.attempt.name);
  }

  lemma JoinerCounts(e: Etcd, victim: string, joiner: string)
    requires joiner !in e.live
    ensures LiveVoters(Etcd(e.members + [Member(joiner, "")], Survivors(e.live, victim))) ==
            Survivors(LiveVoters(e), victim)
  {
    NamesConcat(e.members, [Member(joiner, "")]);
    assert MemberNames([Member(joiner, "")]) == {joiner} by {
      assert [Member(joiner, "")][0].name == joiner;
    }
  }

  lemma SkippedRun(e: Etcd, list: seq<NodeStatus>, victim: NodeStatus, h: CPHeal)
    requires RemovedMember(ApplyList(list, Update(PhaseUpdate(victim.name, RemovingFromEtcd), h.rest.at)),
                           victim.name, victim.privateIP, h) == None
    requires !NodeObjectRefused(h.rest) && h.rest.serverDeleteOk && h.rest.prepared
    requires h.rest.attempt.server.Provisioned? && h.rest.attempt.config == NotReadyInTime
    ensures RunEtcd(e, ReplaceCPSteps(list, victim, h)) ==
            Etcd(e.members + [Member(h.rest.attempt.name, "")], Survivors(e.live, victim.name))
  {
    var mark := Update(PhaseUpdate(victim.name, RemovingFromEtcd), h.rest.at);
    hide RemovedMember, ApplyList, RunEtcd, DeleteSteps, ReprovisionSteps;
    var tail := DeleteSteps(victim.name, h.rest) + ReprovisionSteps(victim.name, h.rest);
    assert ReplaceCPSteps(list, victim, h) == [mark] + tail;
    EtcdOne(e, mark);
    RunEtcdConcat(e, [mark], tail);
    RunEtcdConcat(e, DeleteSteps(victim.name, h.rest), ReprovisionSteps(victim.name, h.rest));
    EtcdAfterDelete(e, victim.name, h.rest);
    EtcdAfterTimeout(e.(live := Survivors(e.live, victim.name)), victim.name, h.rest);
  }

  lemma {:induction false} SilentSteps(e: Etcd, steps: seq<Step>)
    requires forall s | s in steps :: EtcdStep(e, s) == e
    ensures RunEtcd(e, steps) == e
  {
    if steps != [] {
      SilentSteps(e, steps[..|steps| - 1]);
      assert steps[|steps| - 1] in steps;
    }
  }

  lemma EtcdAfterDelete(e: Etcd, name: string, h: Heal)
    requires !NodeObjectRefused(h) && h.serverDeleteOk
    ensures RunEtcd(e, DeleteSteps(name, h)) == e.(live := Survivors(e.live, name))
  {
    var mark, srv := Update(PhaseUpdate(name, DeletingServer), h.at), Do(ServerDeleted(name));
    var before := [mark] + if h.nodeFound then [Do(NodeObjectDeleted(name))] else [];
    var after := if name != "" then [srv] else [];
    assert DeleteSteps(name, h) == before + after;
    SilentSteps(e, before);
    RunEtcdConcat(e, before, after);
    EtcdOne(e, srv);
    hide DeleteSteps;
  }

  lemma BeforeJoiningIsSilent(e: Etcd, name: string, a: Attempt)
    requires a.server.Provisioned?
    ensures RunEtcd(e, [Remove(name)] + (ProvisionSteps(a) + [AddressStep(a), Phase(a, ApplyingTalosConfig)])) == e
  {
    var steps := [Remove(name), Phase(a, CreatingServer), Do(ServerCreated(a.name)), Phase(a, WaitingForIP),
                  AddressStep(a), Phase(a, ApplyingTalosConfig)];
    assert ProvisionSteps(a) == [Phase(a, CreatingServer), Do(ServerCreated(a.name)), Phase(a, WaitingForIP)];
    assert steps == [Remove(name)] + (ProvisionSteps(a) + [AddressStep(a), Phase(a, ApplyingTalosConfig)]);
    hide ProvisionSteps, RunEtcd;
    SilentSteps(e, steps);
  }

  lemma TimeoutIsSilent(e: Etcd, a: Attempt)
    requires a.config == NotReadyInTime
    ensures RunEtcd(e, WaitSteps(ControlPlane, a)) == e
  {
    hide RunEtcd;
    SilentSteps(e, WaitSteps(ControlPlane, a));
  }

  lemma ReprovisionIs(name: string, h: Heal)
    requires !NodeObjectRefused(h) && h.prepared && h.attempt.server.Provisioned? && h.attempt.config == NotReadyInTime
    ensures var a := h.attempt;
            ReprovisionSteps(name, h) ==
            [Remove(name)] + (ProvisionSteps(a) + [AddressStep(a), Phase(a, ApplyingTalosConfig)]) +
            [Do(ConfigApplied(a.name))] + WaitSteps(ControlPlane, a)
  {
    hide ProvisionSteps, WaitSteps, AddressStep, Phase;
  }

  lemma EtcdAfterTimeout(e: Etcd, name: string, h: Heal)
    requires !NodeObjectRefused(h) && h.prepared && h.attempt.server.Provisioned? && h.attempt.config == NotReadyInTime
    ensures RunEtcd(e, ReprovisionSteps(name, h)) == e.(members := e.members + [Member(h.attempt.name, "")])
  {
    var a := h.attempt;
    BeforeJoiningIsSilent(e, name, a);
    var join := Do(ConfigApplied(a.name));
    EtcdOne(e, join);
    TimeoutIsSilent(EtcdStep(e, join), a);
    hide RunEtcd, WaitSteps, ProvisionSteps, AddressStep, Phase;
    var before := [Remove(name)] + (ProvisionSteps(a) + [AddressStep(a), Phase(a, ApplyingTalosConfig)]);
    var after := WaitSteps(ControlPlane, a);
    ReprovisionIs(name, h);
    RunEtcdConcat(e, before, [join]);
    RunEtcdConcat(e, before + [join], after);
  }

  // ---- For which clusters, and for which sizes ------------------------------------

  // The member is not removed, and the replacement has a generated name.
  ghost predicate Skipped(e: Etcd, list: seq<NodeStatus>, victim: NodeStatus, h: CPHeal) {
    && h.rest.attempt.name !in Names(list) + MemberNames(e.members) + e.live
    && RemovedMember(ApplyList(list, Update(PhaseUpdate(victim.name, RemovingFromEtcd), h.rest.at)),
                     victim.name, victim.privateIP, h) == None
  }

  ghost predicate QuorateAt(e: Etcd, list: seq<NodeStatus>, victim: NodeStatus, h: CPHeal, moment: nat) {
    moment <= |ReplaceCPSteps(list, victim, h)| ==> Quorate(RunEtcd(e, ReplaceCPSteps(list, victim, h)[..moment]))
  }

  /** Whatever else fails or succeeds, the quorum stands at every moment. */
  ghost predicate SafeWhenSkipped(e: Etcd, list: seq<NodeStatus>, victim: NodeStatus) {
    forall h: CPHeal, moment: nat | Skipped(e, list, victim, h) :: QuorateAt(e, list, victim, h, moment)
  }

  lemma SurvivorsStay(e: Etcd, list: seq<NodeStatus>, victim: NodeStatus, h: CPHeal, moment: nat)
    requires Skipped(e, list, victim, h) && 2 * |Survivors(LiveVoters(e), victim.name)| > |e.members| + 1
    ensures QuorateAt(e, list, victim, h, moment)
  {
    var mark := Update(PhaseUpdate(victim.name, RemovingFromEtcd), h.rest.at);
    var tail := DeleteSteps(victim.name, h.rest) + ReprovisionSteps(victim.name, h.rest);
    var steps, voters := ReplaceCPSteps(list, victim, h), Survivors(LiveVoters(e), victim.name);
    hide RemovedMember, ApplyList, DeleteSteps, ReprovisionSteps, RunEtcd, Joins;
    assert steps == [mark] + tail;
    assert h.rest.attempt.name !in voters;
    TailSpares(victim.name, h.rest, voters);
    NoJoins([mark]);
    JoinsConcat([mark], tail);
    hide LiveVoters;
    if moment <= |steps| {
      PartSpares(steps, moment, voters);
      VotersStay(e, steps[..moment], voters);
      SubsetSize(voters, LiveVoters(RunEtcd(e, steps[..moment])));
    }
    hide ReplaceCPSteps;
  }

  // A replacement without Talos clients that times out once its configuration is applied.
  function Lost(name: string): CPHeal {
    CPHeal(false, None, true, Heal(true, true, true, true,
           Attempt(name, Provisioned(1, "", ""), NotReadyInTime, true, 0), 0))
  }

  /** A cluster keeps its quorum through every skipped removal if and only if the voters
      left without the victim outnumber the rest after one more member has joined. */
  lemma SkippedRemovalIff(e: Etcd, list: seq<NodeStatus>, victim: NodeStatus, total: nat)
    requires Replaceable(e, list, victim, total)
    ensures SafeWhenSkipped(e, list, victim) <==> 2 * |Survivors(LiveVoters(e), victim.name)| > total + 1
  {
    assert |e.members| == total;
    hide ReplaceCPSteps, RunEtcd, LiveVoters, Names, ApplyList, Quorate, Survivors;
    if 2 * |Survivors(LiveVoters(e), victim.name)| > total + 1 {
      forall h: CPHeal, moment: nat | Skipped(e, list, victim, h) ensures QuorateAt(e, list, victim, h, moment) {
        SurvivorsStay(e, list, victim, h, moment);
      }
    } else {
      var names := FreshStrings(Names(list) + MemberNames(e.members) + e.live, 1);
      var h := Lost(names[0]);
      hide Replaceable;
      SkippedRemoval(e, list, victim, h, total);
      var steps := ReplaceCPSteps(list, victim, h);
      assert steps[..|steps|] == steps;
      assert Skipped(e, list, victim, h) && !QuorateAt(e, list, victim, h, |steps|);
    }
  }

  lemma {:induction false} ReadySeq(list: seq<NodeStatus>) returns (names: seq<string>)
    ensures |names| == CountReady(list) && forall n :: n in names <==> n in ReadyNames(list)
  {
    if list == [] {
      names := [];
    } else {
      var k := |list| - 1;
      names := ReadySeq(list[..k]);
      assert list == list[..k] + [list[k]];
      ReadySnoc(list[..k], list[k]);
      hide ReadyNames;
      if list[k].healthy { names := names + [list[k].name]; }
    }
  }

  // A membership of these names; only the victim's own entry answers to its address.
  function Membership(names: seq<string>, victim: NodeStatus): seq<Member> {
    seq(|names|, i requires 0 <= i < |names| =>
      Member(names[i], if names[i] == victim.name then victim.privateIP else victim.privateIP + "x"))
  }

  lemma MembershipNames(names: seq<string>, victim: NodeStatus)
    ensures forall n :: n in names <==> n in MemberNames(Membership(names, victim))
    ensures forall m | m in Membership(names, victim) && IsMemberOf(m, victim.name, victim.privateIP) ::
              m.name == victim.name
  {
    var ms := Membership(names, victim);
    forall n | n in names ensures n in MemberNames(ms) {
      var i :| 0 <= i < |names| && names[i] == n;
      assert ms[i].name == n;
    }
    assert |victim.privateIP + "x"| != |victim.privateIP|;
  }

  /** A cluster in which exactly the ready nodes vote. */
  lemma ReadyAlone(list: seq<NodeStatus>, victim: NodeStatus, total: nat) returns (e: Etcd)
    requires UniqueNames(list) && victim in list && !victim.healthy
    requires Gate(CountReady(list), total) && CountReady(list) <= total
    ensures Replaceable(e, list, victim, total) && LiveVoters(e) == ReadyNames(list)
  {
    var ready := ReadySeq(list);
    var pad := total - CountReady(list);
    var others := FreshStrings(Names(list), pad);
    var names := ready + if pad == 0 then [] else [victim.name] + others[1..];
    e := Etcd(Membership(names, victim), ReadyNames(list));
    MembershipNames(names, victim);
    VictimNotReady(list, victim);
    hide Membership, ReadyNames, MemberNames, UniqueNames, Names, IsMemberOf;
    forall n | n in ReadyNames(list) ensures n in MemberNames(e.members) {
      assert n in names;
    }
  }

  /** Given the list, every cluster is safe if and only if the size is even or more nodes
      are ready than the gate asks for. */
  lemma QuorumCanBeLostIff(list: seq<NodeStatus>, victim: NodeStatus, total: nat)
    requires UniqueNames(list) && victim in list && !victim.healthy && Gate(CountReady(list), total)
    ensures (forall e: Etcd | Replaceable(e, list, victim, total) :: SafeWhenSkipped(e, list, victim)) <==>
            total % 2 == 0 || CountReady(list) > total / 2 + 1
  {
    hide SafeWhenSkipped, Replaceable, LiveVoters;
    ReadyCount(list);
    if total % 2 == 0 || CountReady(list) > total / 2 + 1 {
      forall e: Etcd | Replaceable(e, list, victim, total) ensures SafeWhenSkipped(e, list, victim) {
        SkippedRemovalIff(e, list, victim, total);
        ReadySurvive(e, list, victim, total);
      }
    } else {
      var e := ReadyAlone(list, victim, total);
      SkippedRemovalIff(e, list, victim, total);
      SubsetSize(Survivors(LiveVoters(e), victim.name), LiveVoters(e));
    }
  }

  lemma ReadySurvive(e: Etcd, list: seq<NodeStatus>, victim: NodeStatus, total: nat)
    requires Replaceable(e, list, victim, total)
    ensures |Survivors(LiveVoters(e), victim.name)| >= CountReady(list)
  {
    hide LiveVoters, Gate, IsMemberOf;
    ReadyCount(list);
    VictimNotReady(list, victim);
    SubsetSize(ReadyNames(list), Survivors(LiveVoters(e), victim.name));
  }

  // The first `ready` of these nodes are healthy.
  function SomeReady(names: seq<string>, ready: nat): (list: seq<NodeStatus>)
    ensures |list| == |names|
    ensures forall i | 0 <= i < |names| :: list[i].name == names[i] && list[i].healthy == (i < ready)
  {
    seq(|names|, i requires 0 <= i < |names| =>
      NodeStatus(names[i], 0, "", "", NoPhase, None, i < ready, None))
  }

  lemma {:induction false} CountFirst(list: seq<NodeStatus>, ready: nat)
    requires forall i | 0 <= i < |list| :: list[i].healthy == (i < ready)
    ensures CountReady(list) == if |list| <= ready then |list| else ready
  {
    if list != [] {
      CountFirst(list[..|list| - 1], ready);
    }
  }

  /** Over all clusters of a size, the gate alone covers a skipped removal exactly when
      the size is even. */
  lemma GateCoversSkippedRemoval(total: nat)
    ensures (forall e: Etcd, list: seq<NodeStatus>, victim: NodeStatus |
               Replaceable(e, list, victim, total) :: SafeWhenSkipped(e, list, victim)) <==>
            total % 2 == 0
  {
    hide SafeWhenSkipped, LiveVoters;
    if total % 2 == 0 {
      forall e: Etcd, list: seq<NodeStatus>, victim: NodeStatus | Replaceable(e, list, victim, total)
        ensures SafeWhenSkipped(e, list, victim)
      {
        QuorumCanBeLostIff(list, victim, total);
      }
    } else {
      var least := total / 2 + 1;
      var names := FreshStrings({}, least + 1);
      var list := SomeReady(names, least);
      hide SomeReady, Replaceable;
      CountFirst(list, least);
      QuorumCanBeLostIff(list, list[least], total);
    }
  }

  function ThreeMembers(a: NodeStatus, b: NodeStatus, c: NodeStatus): Etcd {
    Etcd([Member(a.name, a.privateIP), Member(b.name, b.privateIP), Member(c.name, c.privateIP)], {a.name, b.name})
  }

  lemma TwoOfThreeReady(a: NodeStatus, b: NodeStatus, c: NodeStatus)
    requires a.name != b.name && b.name != c.name && a.name != c.name
    requires a.privateIP != c.privateIP && b.privateIP != c.privateIP
    requires a.healthy && b.healthy && !c.healthy
    ensures var e, list := ThreeMembers(a, b, c), [a, b, c];
            && Replaceable(e, list, c, 3) && LiveVoters(e) == {a.name, b.name}
            && MemberNames(e.members) == {a.name, b.name, c.name}
  {
    var e, list := ThreeMembers(a, b, c), [a, b, c];
    assert MemberNames(e.members) == {a.name, b.name, c.name} by {
      assert e.members[0].name == a.name && e.members[1].name == b.name && e.members[2].name == c.name;
    }
    assert ReadyNames(list) == {a.name, b.name} by {
      assert list[0] == a && list[1] == b && list[2] == c;
    }
    ReadyCount(list);
    assert list[2] == c;
  }

  /** Three control planes, two of them ready, and no removal of the third: the
      joiner makes it four members with two voters, and the quorum is lost. */
  lemma QuorumLost(a: NodeStatus, b: NodeStatus, c: NodeStatus, h: CPHeal)
    requires a.name != b.name && b.name != c.name && a.name != c.name && c.name != ""
    requires a.privateIP != c.privateIP && b.privateIP != c.privateIP
    requires a.healthy && b.healthy && !c.healthy
    requires !h.hasClient || h.listing == None
    requires !NodeObjectRefused(h.rest) && h.rest.serverDeleteOk && h.rest.prepared
    requires h.rest.attempt.server.Provisioned? && h.rest.attempt.config == NotReadyInTime
    requires h.rest.attempt.name !in {a.name, b.name, c.name}
    ensures var e, list := ThreeMembers(a, b, c), [a, b, c];
            Quorate(e) && !Quorate(RunEtcd(e, ReplaceCPSteps(list, c, h)))
  {
    hide RunEtcd, ReplaceCPSteps, Replaceable, ApplyList;
    TwoOfThreeReady(a, b, c);
    var e, list := ThreeMembers(a, b, c), [a, b, c];
    SkippedRemoval(e, list, c, h, 3);
    assert LiveVoters(e) - {c.name} == {a.name, b.name};
  }

  lemma QuorumCanBeLost()
    ensures exists e: Etcd, list: seq<NodeStatus>, victim: NodeStatus, h: CPHeal ::
      Replaceable(e, list, victim, 3) && Quorate(e) && !Quorate(RunEtcd(e, ReplaceCPSteps(list, victim, h)))
  {
    hide RunEtcd, ReplaceCPSteps, Quorate, Replaceable;
    var node := (name: string, ip: string, ok: bool) =>
      NodeStatus(name, 7, "", ip, NoPhase, None, ok, if ok then None else Some(100));
    var a, b, c := node("a", "10.0.64.2", true), node("b", "10.0.64.3", true), node("c", "10.0.64.4", false);
    var h := CPHeal(true, None, true, Heal(true, true, true, true,
                    Attempt("d", Provisioned(9, "", "10.0.64.5"), NotReadyInTime, true, 1000), 1000));
    assert "10.0.64.2"[8] != "10.0.64.4"[8] && "10.0.64.3"[8] != "10.0.64.4"[8];
    TwoOfThreeReady(a, b, c);
    QuorumLost(a, b, c, h);
  }
}
