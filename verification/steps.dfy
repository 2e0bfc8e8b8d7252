/** What the operator does to one role's node list and to the outside world,
    as steps that are atomic under the status mutex.

    The node list is a Go slice: a backing array (slots), a length, and the
    array that still-live node pointers point into (pinned), which is the
    backing array itself until an append has to move the list. */
module Steps {
  import opened Nodes

  datatype Effect =
    | ServerCreated(name: string)
    | ServerDeleted(name: string)
    | ServerDeleteFailed(name: string)
    | NodeObjectDeleted(name: string)
    | Drained(name: string)
    | ConfigApplied(name: string)
    | NodeBecameReady(name: string)
    | NodeReadyTimedOut(name: string)
    | EtcdMemberRemoved(name: string, member: string)

  datatype Step =
    | Update(update: NodeUpdate, at: nat)
    | Remove(node: string)
    | Do(effect: Effect)

  datatype Mem = Mem(slots: seq<NodeStatus>, len: nat, pinned: seq<NodeStatus>, aliased: bool)

  datatype State = State(mem: Mem, effects: seq<Effect>)

  ghost predicate Ok(m: Mem) {
    m.len <= |m.slots| && (m.aliased ==> m.pinned == m.slots)
  }

  function Contents(m: Mem): seq<NodeStatus>
    requires m.len <= |m.slots|
  {
    m.slots[..m.len]
  }

  const ZERO_NODE := NodeStatus("", 0, "", "", NoPhase, None, false, None)

  /** Room of the array an append moves to. Nothing proved depends on the policy. */
  function GrownCapacity(len: nat): (c: nat)
    ensures c > len
  {
    2 * len + 1
  }

  function WriteSlot(m: Mem, i: nat, n: NodeStatus): (r: Mem)
    requires Ok(m) && i < |m.slots|
    ensures Ok(r)
  {
    var slots := m.slots[i := n];
    Mem(slots, m.len, if m.aliased then slots else m.pinned, m.aliased)
  }

  /** append: in place while there is room, into a new array otherwise. */
  function Push(m: Mem, n: NodeStatus): (r: Mem)
    requires Ok(m)
    ensures Ok(r)
  {
    if m.len < |m.slots| then
      WriteSlot(m, m.len, n).(len := m.len + 1)
    else
      Mem(m.slots + [n] + seq(GrownCapacity(m.len) - m.len - 1, _ => ZERO_NODE), m.len + 1, m.pinned, false)
  }

  function UpdateMem(m: Mem, u: NodeUpdate, now: nat): (r: Mem)
    requires Ok(m)
    ensures Ok(r)
  {
    var i := Find(Contents(m), u.name);
    if i < m.len then WriteSlot(m, i, Touch(m.slots[i], u, now)) else Push(m, NewEntry(u, now))
  }

  function RemoveMem(m: Mem, name: string): (r: Mem)
    requires Ok(m)
    ensures Ok(r)
  {
    var i := Find(Contents(m), name);
    if i < m.len then WriteSlot(m, i, m.slots[m.len - 1]).(len := m.len - 1) else m
  }

  function Apply(st: State, s: Step): (r: State)
    requires Ok(st.mem)
    ensures Ok(r.mem)
  {
    match s
    case Update(u, at) => st.(mem := UpdateMem(st.mem, u, at))
    case Remove(name) => st.(mem := RemoveMem(st.mem, name))
    case Do(e) => st.(effects := st.effects + [e])
  }

  function Run(st: State, steps: seq<Step>): (r: State)
    requires Ok(st.mem)
    ensures Ok(r.mem)
  {
    if steps == [] then st
    else Apply(Run(st, steps[..|steps| - 1]), steps[|steps| - 1])
  }

  lemma {:induction false} RunConcat(st: State, a: seq<Step>, b: seq<Step>)
    requires Ok(st.mem)
    ensures Run(st, a + b) == Run(Run(st, a), b)
  {
    hide Apply;
    if b == [] {
      assert a + b == a;
    } else {
      RunConcat(st, a, b[..|b| - 1]);
      assert (a + b)[..|a + b| - 1] == a + b[..|b| - 1];
    }
  }

  lemma RunOne(st: State, s: Step)
    requires Ok(st.mem)
    ensures Run(st, [s]) == Apply(st, s)
  {
    assert [s][..0] == [];
    assert Run(st, [s][..0]) == st;
  }

  // ---- The same steps on a plain list --------------------------------------

  function ApplyList(s: seq<NodeStatus>, step: Step): seq<NodeStatus> {
    match step
    case Update(u, at) => Upsert(s, u, at)
    case Remove(name) => SwapRemove(s, name)
    case Do(_) => s
  }

  function RunList(s: seq<NodeStatus>, steps: seq<Step>): seq<NodeStatus> {
    if steps == [] then s
    else ApplyList(RunList(s, steps[..|steps| - 1]), steps[|steps| - 1])
  }

  function Effects(steps: seq<Step>): seq<Effect> {
    if steps == [] then []
    else
      var s := steps[|steps| - 1];
      Effects(steps[..|steps| - 1]) + if s.Do? then [s.effect] else []
  }

  lemma ApplyRefinesList(st: State, s: Step)
    requires Ok(st.mem)
    ensures Contents(Apply(st, s).mem) == ApplyList(Contents(st.mem), s)
  {
    var m := st.mem;
    match s
    case Update(u, at) =>
      var i := Find(Contents(m), u.name);
      if i < m.len {
        assert Contents(Apply(st, s).mem) == Contents(m)[i := Touch(m.slots[i], u, at)];
      } else {
        assert Contents(Apply(st, s).mem) == Contents(m) + [NewEntry(u, at)];
      }
    case Remove(name) =>
      var i := Find(Contents(m), name);
      if i < m.len {
        assert Contents(Apply(st, s).mem) == Contents(m)[i := m.slots[m.len - 1]][..m.len - 1];
      }
    case Do(_) =>
  }

  /** Whatever the slice does with its backing array, its contents follow the plain list. */
  lemma {:induction false} RunRefinesList(st: State, steps: seq<Step>)
    requires Ok(st.mem)
    ensures Contents(Run(st, steps).mem) == RunList(Contents(st.mem), steps)
    ensures Run(st, steps).effects == st.effects + Effects(steps)
  {
    if steps != [] {
      var k := |steps| - 1;
      RunRefinesList(st, steps[..k]);
      ApplyRefinesList(Run(st, steps[..k]), steps[k]);
    }
  }

  lemma {:induction false} EffectsConcat(a: seq<Step>, b: seq<Step>)
    ensures Effects(a + b) == Effects(a) + Effects(b)
  {
    if b == [] {
      assert a + b == a;
    } else {
      EffectsConcat(a, b[..|b| - 1]);
      assert (a + b)[..|a + b| - 1] == a + b[..|b| - 1];
    }
  }
}
