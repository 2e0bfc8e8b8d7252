/** The node list of one role inside the cluster status, updated in place, and
    the log of what the operator did to the outside world on its behalf. */
module NodeGroups {
  import opened Nodes
  import opened Steps

  class NodeGroup {
    var backing: array<NodeStatus>
    var length: nat
    var effects: seq<Effect>
    // The array that outstanding node pointers point into.
    var pins: array<NodeStatus>
    // Where the group started and every step taken since.
    ghost var start: State
    ghost var trace: seq<Step>

    /** The state is what the steps taken so far make of the start. */
    ghost predicate Valid()
      reads this, backing, pins
    {
      length <= backing.Length && Ok(start.mem) && View() == Run(start, trace)
    }

    ghost function View(): State
      reads this, backing, pins
    {
      State(Mem(backing[..], length, pins[..], pins == backing), effects)
    }

    function List(): seq<NodeStatus>
      requires length <= backing.Length
      reads this, backing
    {
      backing[..length]
    }

    /** The group took exactly these steps. */
    twostate predicate Did(steps: seq<Step>)
      reads this, backing, pins
    {
      Valid() && (backing == old(backing) || fresh(backing))
      && pins == old(pins) && start == old(start) && trace == old(trace) + steps
    }

    constructor (nodes: seq<NodeStatus>)
      ensures Valid() && fresh(backing) && pins == backing && trace == []
      ensures View() == start == State(Mem(nodes, |nodes|, nodes, true), [])
    {
      var a := new NodeStatus[|nodes|](i requires 0 <= i < |nodes| => nodes[i]);
      backing, length, effects, pins := a, |nodes|, [], a;
      start, trace := State(Mem(nodes, |nodes|, nodes, true), []), [];
    }

    /** Take pointers into the current backing array: the trace starts over. */
    method Pin()
      requires Valid()
      modifies this`pins, this`start, this`trace
      ensures Valid() && pins == backing && trace == []
      ensures start == View() && start.mem.aliased
    {
      pins := backing;
      start, trace := View(), [];
    }

    /** Assign a whole new list, in an array of its own. */
    method Rebuild(nodes: seq<NodeStatus>)
      modifies this`backing, this`length, this`pins, this`start, this`trace
      ensures Valid() && fresh(backing) && pins == backing && trace == []
      ensures View() == start == State(Mem(nodes, |nodes|, nodes, true), old(effects))
    {
      backing := new NodeStatus[|nodes|](i requires 0 <= i < |nodes| => nodes[i]);
      length, pins := |nodes|, backing;
      start, trace := State(Mem(nodes, |nodes|, nodes, true), effects), [];
    }

    /** Index of the first entry with this name, or the length. */
    method IndexOf(name: string) returns (i: nat)
      requires length <= backing.Length
      ensures i == Find(List(), name)
    {
      i := 0;
      while i < length && backing[i].name != name
        invariant i <= length
        invariant forall j | 0 <= j < i :: backing[j].name != name
      {
        i := i + 1;
      }
      FindIs(List(), name, i);
    }

    method UpdateNodePhase(u: NodeUpdate, now: nat)
      requires Valid()
      modifies this`backing, this`length, this`trace, backing
      ensures Did([Update(u, now)])
    {
      hide Run;
      var i := IndexOf(u.name);
      if i < length {
        backing[i] := Touch(backing[i], u, now);
      } else {
        Append(NewEntry(u, now));
      }
      assert View() == Apply(old(View()), Update(u, now));
      hide Apply, Find;
      trace := trace + [Update(u, now)];
      RunConcat(start, old(trace), [Update(u, now)]);
      RunOne(old(View()), Update(u, now));
    }

    method Append(n: NodeStatus)
      requires length <= backing.Length
      modifies this`backing, this`length, backing
      ensures backing == old(backing) || fresh(backing)
      ensures View() == State(Push(old(View()).mem, n), old(effects))
    {
      if length < backing.Length {
        backing[length] := n;
      } else {
        var full := backing;
        backing := new NodeStatus[GrownCapacity(length)](i requires 0 <= i reads full =>
          if i < full.Length then full[i] else if i == full.Length then n else ZERO_NODE);
      }
      length := length + 1;
    }

    method RemoveNodeFromStatus(name: string)
      requires Valid()
      modifies this`length, this`trace, backing
      ensures Did([Remove(name)])
    {
      hide Run;
      var i := IndexOf(name);
      if i < length {
        backing[i] := backing[length - 1];
        assert backing[..] == old(backing[..])[i := old(backing[length - 1])];
        length := length - 1;
      }
      assert View() == Apply(old(View()), Remove(name));
      hide Apply, Find;
      trace := trace + [Remove(name)];
      RunConcat(start, old(trace), [Remove(name)]);
      RunOne(old(View()), Remove(name));
    }

    /** Record a call to the cloud, Talos or Kubernetes API. */
    method Emit(e: Effect)
      requires Valid()
      modifies this`effects, this`trace
      ensures Did([Do(e)])
    {
      effects := effects + [e];
      trace := trace + [Do(e)];
      RunConcat(start, old(trace), [Do(e)]);
      RunOne(old(View()), Do(e));
    }

    /** One step, whichever it is: the unit that the status mutex makes atomic. */
    method Exec(s: Step)
      requires Valid()
      modifies this, backing
      ensures Did([s])
    {
      match s
      case Update(u, at) => UpdateNodePhase(u, at);
      case Remove(name) => RemoveNodeFromStatus(name);
      case Do(e) => Emit(e);
    }
  }
}
