/** Provisioning a pool of servers: names are reused, addresses follow from the index. */
module NodePool {
  import opened Sequences
  import opened Nodes
  import opened Cidr
  import opened Network

  datatype PoolRole = ControlPlanePool | WorkerPool

  // privateIP is the address as a number.
  datatype ServerConfig = ServerConfig(name: string, privateIP: nat)

  /** All control-plane pools share one subnet, ten hosts each; every worker pool has its own. */
  function HostNum(role: PoolRole, pool: nat, idx: nat): nat {
    if role.ControlPlanePool? then pool * 10 + idx + 2 else idx + 2
  }

  function PoolSubnet(node: Prefix, nodeMask: int, role: PoolRole, pool: nat): Outcome<Prefix>
    requires Cidr.Valid(node)
  {
    if role.ControlPlanePool? then GetSubnetForRole(node, nodeMask, ControlPlanes, 0)
    else GetSubnetForRole(node, nodeMask, Workers, pool)
  }

  function SubnetNumber(role: PoolRole, pool: nat): nat {
    if role.ControlPlanePool? then 0 else 2 + pool
  }

  lemma PoolSubnetIs(node: Prefix, nodeMask: int, role: PoolRole, pool: nat)
    requires Cidr.Valid(node)
    ensures PoolSubnet(node, nodeMask, role, pool) == CIDRSubnet(node, nodeMask - node.len, SubnetNumber(role, pool))
    ensures PoolSubnet(node, nodeMask, role, pool).Ok? ==>
              && node.len <= nodeMask <= 32 && SubnetNumber(role, pool) < Pow2(nodeMask - node.len)
              && Cidr.Valid(PoolSubnet(node, nodeMask, role, pool).value)
              && PoolSubnet(node, nodeMask, role, pool).value.len == nodeMask
  {
    var bits, n := nodeMask - node.len, SubnetNumber(role, pool);
    if PoolSubnet(node, nodeMask, role, pool).Ok? {
      SubnetIsInside(node, bits, n);
    }
  }

  function PrivateAddress(node: Prefix, nodeMask: int, role: PoolRole, pool: nat, idx: nat): Outcome<nat>
    requires Cidr.Valid(node)
  {
    PoolSubnetIs(node, nodeMask, role, pool);
    var subnet := PoolSubnet(node, nodeMask, role, pool);
    match subnet
    case Ok(s) => CIDRHost(s, HostNum(role, pool, idx))
    case Error(e) => Error(e)
    case Panics => Panics
  }

  /** An address handed out lies in its role's subnet, at host number 2 or later. */
  lemma AddressIsInside(node: Prefix, nodeMask: int, role: PoolRole, pool: nat, idx: nat)
    requires Cidr.Valid(node) && PrivateAddress(node, nodeMask, role, pool, idx).Ok?
    ensures var subnet := PoolSubnet(node, nodeMask, role, pool);
            var address := PrivateAddress(node, nodeMask, role, pool, idx).value;
            && subnet.Ok? && subnet.value.len <= 32 && Contains(subnet.value, address)
            && address == subnet.value.base + HostNum(role, pool, idx)
            && address >= subnet.value.base + 2
  {
    PoolSubnetIs(node, nodeMask, role, pool);
    hide Pow2, PoolSubnet, Cidr.Valid, Truncated;
    HostIsInside(PoolSubnet(node, nodeMask, role, pool).value, HostNum(role, pool, idx));
  }

  /** A pool's addresses are consecutive. Those of a worker pool start at host 2 of its
      subnet, those of the next control-plane pool ten hosts after the one before. */
  lemma AddressesAreConsecutive(node: Prefix, nodeMask: int, role: PoolRole, pool: nat, idx: nat)
    requires Cidr.Valid(node) && PrivateAddress(node, nodeMask, role, pool, idx).Ok?
    ensures PoolSubnet(node, nodeMask, role, pool).Ok?
    ensures var start := PoolSubnet(node, nodeMask, role, pool).value.base + 2;
            var address := PrivateAddress(node, nodeMask, role, pool, idx).value;
            address == if role == WorkerPool then start + idx else start + 10 * pool + idx
  {
    AddressIsInside(node, nodeMask, role, pool, idx);
    hide PrivateAddress, PoolSubnet;
  }

  // ---- Injectivity over one provisioning pass -------------------------------------------

  // One server of the plan: the idx-th of a pool.
  datatype Slot = Slot(role: PoolRole, pool: nat, idx: nat)

  predicate InPlan(s: Slot, cp: seq<nat>, workers: seq<nat>) {
    var counts := if s.role.ControlPlanePool? then cp else workers;
    s.pool < |counts| && s.idx < counts[s.pool]
  }

  // No control-plane pool reaches the hosts of a later pool that is in use.
  predicate PoolsFit(cp: seq<nat>) {
    forall i, j | 0 <= i < j < |cp| && cp[j] > 0 :: cp[i] <= 10 * (j - i)
  }

  function AddressOf(node: Prefix, nodeMask: int, s: Slot): Outcome<nat>
    requires Cidr.Valid(node)
  {
    PrivateAddress(node, nodeMask, s.role, s.pool, s.idx)
  }

  lemma HostsDiffer(cp: seq<nat>, a: Slot, b: Slot)
    requires PoolsFit(cp) && InPlan(a, cp, []) && InPlan(b, cp, []) && a != b
    ensures HostNum(a.role, a.pool, a.idx) != HostNum(b.role, b.pool, b.idx)
  {
    if a.pool < b.pool {
      assert cp[a.pool] <= 10 * (b.pool - a.pool);
    } else if b.pool < a.pool {
      assert cp[b.pool] <= 10 * (a.pool - b.pool);
    }
  }

  /** Across all pools and indexes of one pass, no address is handed out twice. */
  lemma AddressesAreDistinct(node: Prefix, nodeMask: int, cp: seq<nat>, workers: seq<nat>, a: Slot, b: Slot)
    requires Cidr.Valid(node) && PoolsFit(cp)
    requires InPlan(a, cp, workers) && InPlan(b, cp, workers) && a != b
    requires AddressOf(node, nodeMask, a).Ok? && AddressOf(node, nodeMask, b).Ok?
    ensures AddressOf(node, nodeMask, a).value != AddressOf(node, nodeMask, b).value
  {
    AddressIsInside(node, nodeMask, a.role, a.pool, a.idx);
    AddressIsInside(node, nodeMask, b.role, b.pool, b.idx);
    PoolSubnetIs(node, nodeMask, a.role, a.pool);
    PoolSubnetIs(node, nodeMask, b.role, b.pool);
    hide Pow2, CIDRSubnet, PoolSubnet, PrivateAddress, Cidr.Valid;
    if SubnetNumber(a.role, a.pool) != SubnetNumber(b.role, b.pool) {
      SubnetsAreDisjoint(node, nodeMask - node.len, SubnetNumber(a.role, a.pool), SubnetNumber(b.role, b.pool));
    } else if a.role.ControlPlanePool? {
      HostsDiffer(cp, a, b);
    }
  }

  /** Pools of at most ten nodes fit. */
  lemma TenFit(cp: seq<nat>)
    requires forall i | 0 <= i < |cp| :: cp[i] <= 10
    ensures PoolsFit(cp)
  {
  }

  /** The limit is exact: the control-plane hosts differ from each other if and only if
      the pools fit. */
  lemma PoolsFitIsExact(cp: seq<nat>)
    ensures PoolsFit(cp) <==>
            forall a, b | InPlan(a, cp, []) && InPlan(b, cp, []) && a != b ::
              HostNum(a.role, a.pool, a.idx) != HostNum(b.role, b.pool, b.idx)
  {
    if PoolsFit(cp) {
      forall a, b | InPlan(a, cp, []) && InPlan(b, cp, []) && a != b
        ensures HostNum(a.role, a.pool, a.idx) != HostNum(b.role, b.pool, b.idx)
      {
        HostsDiffer(cp, a, b);
      }
    } else {
      var i, j :| 0 <= i < j < |cp| && cp[j] > 0 && cp[i] > 10 * (j - i);
      var a, b := Slot(ControlPlanePool, i, 10 * (j - i)), Slot(ControlPlanePool, j, 0);
      assert InPlan(a, cp, []) && InPlan(b, cp, []) && a != b;
      assert HostNum(a.role, a.pool, a.idx) == HostNum(b.role, b.pool, b.idx);
    }
  }

  // ---- Re-runs ---------------------------------------------------------------------------

  // The address index each existing server of the pool holds, in listing order.
  // A re-run takes the listed names for its first indexes and gives the new
  // servers the addresses of the indexes after them.

  /** A re-run hands out an address that is already held exactly when some server
      holds an index at or beyond the number of servers. */
  lemma ReuseIsExact(node: Prefix, nodeMask: int, role: PoolRole, pool: nat, held: seq<nat>, count: nat)
    requires Cidr.Valid(node)
    requires forall i | 0 <= i < count || i in held :: PrivateAddress(node, nodeMask, role, pool, i).Ok?
    ensures (exists i, k | |held| <= i < count && 0 <= k < |held| ::
              PrivateAddress(node, nodeMask, role, pool, i) == PrivateAddress(node, nodeMask, role, pool, held[k])) <==>
            exists k | 0 <= k < |held| :: |held| <= held[k] < count
  {
    forall i, k | |held| <= i < count && 0 <= k < |held|
      ensures PrivateAddress(node, nodeMask, role, pool, i) == PrivateAddress(node, nodeMask, role, pool, held[k]) <==>
              i == held[k]
    {
      AddressIsInside(node, nodeMask, role, pool, i);
      AddressIsInside(node, nodeMask, role, pool, held[k]);
    }
    if k :| 0 <= k < |held| && |held| <= held[k] < count {
      assert PrivateAddress(node, nodeMask, role, pool, held[k]) == PrivateAddress(node, nodeMask, role, pool, held[k]);
    }
  }

  // The servers of the pool hold exactly the first indexes, each once.
  ghost predicate Dense(held: seq<nat>) {
    && (forall k | 0 <= k < |held| :: held[k] < |held|)
    && (forall j, k | 0 <= j < k < |held| :: held[j] != held[k])
  }

  // A pass that asks for at least as many servers as there are and creates them
  // all; the next listing may come in any order.
  ghost predicate GrowsTo(held: seq<nat>, count: nat, next: seq<nat>) {
    count >= |held| && multiset(next) == multiset(held + seq(count - |held|, i requires 0 <= i => |held| + i))
  }

  lemma DenseGrows(held: seq<nat>, count: nat, next: seq<nat>)
    requires Dense(held) && GrowsTo(held, count, next)
    ensures Dense(next) && |next| == count
  {
    var all := held + seq(count - |held|, i requires 0 <= i => |held| + i);
    assert |next| == |multiset(next)| == |multiset(all)| == count;
    forall k | 0 <= k < |next| ensures next[k] < count {
      assert next[k] in multiset(all);
      var i :| 0 <= i < |all| && all[i] == next[k];
    }
    forall j, k | 0 <= j < k < |next| ensures next[j] != next[k] {
      if next[j] == next[k] {
        Twice(next, j, k);
        Once(all, next[j]);
      }
    }
  }

  /** Passes that only grow a pool and never partially fail reuse no held address,
      however many there are and whatever order the servers are listed in. */
  lemma {:induction false} GrowingPoolsReuseNothing(helds: seq<seq<nat>>, counts: seq<nat>, k: nat)
    requires |helds| == |counts| + 1 && helds[0] == [] && k <= |counts|
    requires forall i | 0 <= i < |counts| :: GrowsTo(helds[i], counts[i], helds[i + 1])
    ensures Dense(helds[k])
    ensures k < |counts| ==> forall j | 0 <= j < |helds[k]| :: !(|helds[k]| <= helds[k][j] < counts[k])
  {
    if k > 0 {
      GrowingPoolsReuseNothing(helds, counts, k - 1);
      DenseGrows(helds[k - 1], counts[k - 1], helds[k]);
    }
  }

  /** After the middle one of three servers was deleted, asking for three again gives
      the replacement the address that the last one still holds. */
  lemma DeletedServerCausesReuse(node: Prefix, nodeMask: int)
    requires Cidr.Valid(node)
    requires forall i | 0 <= i < 3 :: PrivateAddress(node, nodeMask, WorkerPool, 0, i).Ok?
    ensures exists i, k | 2 <= i < 3 && 0 <= k < 2 ::
              PrivateAddress(node, nodeMask, WorkerPool, 0, i) ==
              PrivateAddress(node, nodeMask, WorkerPool, 0, [0, 2][k])
  {
    var held: seq<nat> := [0, 2];
    assert held[1] == 2;
    hide PrivateAddress;
    ReuseIsExact(node, nodeMask, WorkerPool, 0, held, 3);
  }

  // ---- The operator's method ---------------------------------------------------------------

  /** Names and addresses of a pool: existing names first, then fresh ones; nothing
      is planned when any address cannot be computed. */
  method PlanPool(node: Prefix, nodeMask: int, role: PoolRole, pool: nat, count: nat,
                  existing: seq<string>, newName: nat -> string)
    returns (plan: Outcome<seq<ServerConfig>>)
    requires Cidr.Valid(node)
    ensures plan.Ok? <==> forall i | 0 <= i < count :: PrivateAddress(node, nodeMask, role, pool, i).Ok?
    ensures plan.Ok? ==>
              && |plan.value| == count
              && forall i | 0 <= i < count ::
                   && plan.value[i].name == (if i < |existing| then existing[i] else newName(i))
                   && Ok(plan.value[i].privateIP) == PrivateAddress(node, nodeMask, role, pool, i)
  {
    var configs: seq<ServerConfig> := [];
    var j := 1;
    while j <= count
      invariant 1 <= j <= count + 1 && |configs| == j - 1
      invariant forall i | 0 <= i < j - 1 ::
                  && configs[i].name == (if i < |existing| then existing[i] else newName(i))
                  && Ok(configs[i].privateIP) == PrivateAddress(node, nodeMask, role, pool, i)
    {
      var idx := j - 1;
      var srvName := if idx < |existing| then existing[idx] else newName(idx);
      var address := PrivateAddress(node, nodeMask, role, pool, idx);
      match address {
        case Ok(ip) =>
          configs := configs + [ServerConfig(srvName, ip)];
        case Error(e) =>
          assert !PrivateAddress(node, nodeMask, role, pool, idx).Ok?;
          return Error(e);
        case Panics =>
          assert !PrivateAddress(node, nodeMask, role, pool, idx).Ok?;
          return Panics;
      }
      j := j + 1;
    }
    return Ok(configs);
  }
}
