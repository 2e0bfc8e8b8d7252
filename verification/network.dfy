/** The address plan of a cluster: ranges cut from the network, and the subnet of each role. */
module Network {
  import opened Nodes
  import opened Cidr

  const POD_SUBNET_MASK := 24

  datatype SubnetRole = ControlPlanes | LoadBalancer | Workers | Autoscaler | UnknownRole(name: string)

  /** Given ranges stay; missing ones are cut from the network; the network defaults to 10.0.0.0/16. */
  class NetworkConfig {
    var ipv4: Option<Prefix>
    var node: Option<Prefix>
    var service: Option<Prefix>
    var pod: Option<Prefix>
    // 0 means not set.
    var nodeMask: int

    predicate Parsed()
      reads this
    {
      && (ipv4.Some? ==> Cidr.Valid(ipv4.value)) && (node.Some? ==> Cidr.Valid(node.value))
      && (service.Some? ==> Cidr.Valid(service.value)) && (pod.Some? ==> Cidr.Valid(pod.value))
    }

    constructor (ipv4: Option<Prefix>, node: Option<Prefix>, service: Option<Prefix>, pod: Option<Prefix>,
                 nodeMask: int)
      ensures this.ipv4 == ipv4 && this.node == node && this.service == service && this.pod == pod
      ensures this.nodeMask == nodeMask
    {
      this.ipv4, this.node, this.service, this.pod, this.nodeMask := ipv4, node, service, pod, nodeMask;
    }

    method CalculateNodeSubnet(net: Prefix) returns (ok: bool)
      requires Parsed() && Cidr.Valid(net)
      modifies this`node
      ensures Parsed() && ok == (old(node).Some? || net.len <= 29)
      ensures node == Planned(old(node), net, 3, 2)
    {
      if node.Some? {
        return true;
      }
      PlannedIsValid(net, 3, 2);
      var subnet := CIDRSubnet(net, 3, 2);
      if !subnet.Ok? {
        return false;
      }
      node := Some(subnet.value);
      return true;
    }

    method CalculateServiceSubnet(net: Prefix) returns (ok: bool)
      requires Parsed() && Cidr.Valid(net)
      modifies this`service
      ensures Parsed() && ok == (old(service).Some? || net.len <= 29)
      ensures service == Planned(old(service), net, 3, 3)
    {
      if service.Some? {
        return true;
      }
      PlannedIsValid(net, 3, 3);
      var subnet := CIDRSubnet(net, 3, 3);
      if !subnet.Ok? {
        return false;
      }
      service := Some(subnet.value);
      return true;
    }

    method CalculatePodSubnet(net: Prefix) returns (ok: bool)
      requires Parsed() && Cidr.Valid(net)
      modifies this`pod
      ensures Parsed() && ok == (old(pod).Some? || net.len <= 31)
      ensures pod == Planned(old(pod), net, 1, 1)
    {
      if pod.Some? {
        return true;
      }
      PlannedIsValid(net, 1, 1);
      var subnet := CIDRSubnet(net, 1, 1);
      if !subnet.Ok? {
        return false;
      }
      pod := Some(subnet.value);
      return true;
    }

    method CalculateNodeSubnetMask()
      requires pod.Some?
      modifies this`nodeMask
      ensures nodeMask == if old(nodeMask) != 0 then old(nodeMask) else 32 - (POD_SUBNET_MASK - pod.value.len)
    {
      if nodeMask == 0 {
        nodeMask := 32 - (POD_SUBNET_MASK - pod.value.len);
      }
    }

    /** Succeeds exactly when every range is given or fits in the network. */
    method CalculateSubnets() returns (ok: bool)
      requires Parsed()
      modifies this
      ensures Parsed() && ipv4 == Some(NetworkOf(old(ipv4)))
      ensures var net := NetworkOf(old(ipv4));
              var first := (old(node).Some? && old(service).Some?) || net.len <= 29;
              && (ok <==> first && (old(pod).Some? || net.len <= 31))
              && node == Planned(old(node), net, 3, 2) && service == Planned(old(service), net, 3, 3)
              && pod == (if first then Planned(old(pod), net, 1, 1) else old(pod))
              && (ok ==> pod.Some?)
              && nodeMask == if !ok || old(nodeMask) != 0 then old(nodeMask) else 32 - (24 - pod.value.len)
    {
      DefaultIsValid();
      hide Planned, Cidr.Valid;
      if ipv4 == None {
        ipv4 := Some(DEFAULT_NETWORK);
      }
      var net := ipv4.value;
      PlannedNeedsRoom(service, net);
      ok := CalculateNodeSubnet(net);
      if !ok {
        return;
      }
      ok := CalculateServiceSubnet(net);
      if !ok {
        return;
      }
      ok := CalculatePodSubnet(net);
      if !ok {
        return;
      }
      PlannedExists(old(pod), net);
      CalculateNodeSubnetMask();
    }
  }

  const DEFAULT_NETWORK := Prefix(0x0A00_0000, 16)

  function NetworkOf(given: Option<Prefix>): Prefix {
    if given.Some? then given.value else DEFAULT_NETWORK
  }

  lemma DefaultIsValid()
    ensures Cidr.Valid(DEFAULT_NETWORK)
    ensures DEFAULT_NETWORK == Prefix(10 * 0x100_0000, 16)
  {
    FourMore(0);
    FourMore(4);
    FourMore(8);
    FourMore(12);
    assert Pow2(16) == 65536;
  }

  function Planned(given: Option<Prefix>, net: Prefix, newbits: nat, netnum: nat): Option<Prefix>
    requires Cidr.Valid(net)
  {
    if given.Some? then given
    else if CIDRSubnet(net, newbits, netnum).Ok? then Some(CIDRSubnet(net, newbits, netnum).value)
    else None
  }

  lemma PlannedNeedsRoom(given: Option<Prefix>, net: Prefix)
    requires Cidr.Valid(net)
    ensures net.len > 29 ==> Planned(given, net, 3, 3) == given
  {
    if net.len > 29 { PlannedIsValid(net, 3, 3); }
  }

  lemma PlannedExists(given: Option<Prefix>, net: Prefix)
    requires Cidr.Valid(net) && (given.Some? || net.len <= 31)
    ensures Planned(given, net, 1, 1).Some?
  {
    PlannedIsValid(net, 1, 1);
  }

  lemma PlannedIsValid(net: Prefix, newbits: nat, netnum: nat)
    requires Cidr.Valid(net) && netnum < Pow2(newbits)
    ensures CIDRSubnet(net, newbits, netnum).Ok? <==> net.len + newbits <= 32
    ensures CIDRSubnet(net, newbits, netnum).Ok? ==> Cidr.Valid(CIDRSubnet(net, newbits, netnum).value)
  {
    if net.len + newbits <= 32 { SubnetIsInside(net, newbits, netnum); }
  }

  /** From the network alone, the node, service and pod ranges lie inside it and do
      not meet. */
  lemma RangesArePartOfNetwork(net: Prefix)
    requires Cidr.Valid(net) && net.len <= 29
    ensures var node, service, pod := Planned(None, net, 3, 2), Planned(None, net, 3, 3), Planned(None, net, 1, 1);
            && node.Some? && service.Some? && pod.Some?
            && node.value.len <= 32 && service.value.len <= 32 && pod.value.len <= 32
            && Within(node.value, net) && Within(service.value, net) && Within(pod.value, net)
            && Disjoint(node.value, service.value) && Disjoint(node.value, pod.value)
            && Disjoint(service.value, pod.value)
  {
    var s := Pow2(29 - net.len);
    assert Pow2(3) == 8 && Pow2(1) == 2;
    assert Pow2(30 - net.len) == 2 * s && Pow2(31 - net.len) == 4 * s;
    assert Offset(2, 29 - net.len) == 2 * s && Offset(3, 29 - net.len) == 3 * s && Offset(1, 31 - net.len) == 4 * s;
    hide Pow2, Offset, CIDRSubnet, Cidr.Valid;
    SubnetIsInside(net, 3, 2);
    SubnetIsInside(net, 3, 3);
    SubnetIsInside(net, 1, 1);
  }

  // ---- Role subnets --------------------------------------------------------------------

  function SubnetIndex(role: SubnetRole, index: nat, newBits: int): Outcome<int> {
    match role
    case ControlPlanes => Ok(0)
    case LoadBalancer => Ok(1)
    case Workers => Ok(2 + index)
    case Autoscaler => if newBits < 0 then Panics else Ok(Pow2(newBits) - 1)
    case UnknownRole(_) => Error("unknown role")
  }

  function GetSubnetForRole(node: Prefix, nodeMask: int, role: SubnetRole, index: nat): Outcome<Prefix>
    requires Cidr.Valid(node)
  {
    var newBits := nodeMask - node.len;
    var i := SubnetIndex(role, index, newBits);
    match i
    case Ok(netnum) => CIDRSubnet(node, newBits, netnum)
    case Error(e) => Error(e)
    case Panics => Panics
  }

  // Workers in pools 0 to 60 and the other three roles.
  predicate Placed(role: SubnetRole, index: nat) {
    role.ControlPlanes? || role.LoadBalancer? || role.Autoscaler? || (role.Workers? && index <= 60)
  }

  lemma SixBits()
    ensures Pow2(6) == 64
  {
    FourMore(2);
  }

  /** With the default plan for a network of length p, a role's subnet takes six
      more bits than the node range, and exists exactly when p is at most 23. */
  lemma RoleSubnetsExist(net: Prefix, role: SubnetRole, index: nat)
    requires Cidr.Valid(net) && net.len <= 29 && (Placed(role, index) || (role.Workers? && index == 61))
    ensures CIDRSubnet(net, 3, 2).Ok? && CIDRSubnet(net, 1, 1).Ok?
    ensures var node, pod := CIDRSubnet(net, 3, 2).value, CIDRSubnet(net, 1, 1).value;
            var mask := 32 - (24 - pod.len);
            && mask - node.len == 6
            && Cidr.Valid(node)
            && (GetSubnetForRole(node, mask, role, index).Ok? <==> net.len <= 23)
  {
    assert Pow2(3) == 8 && Pow2(1) == 2;
    SubnetIsInside(net, 3, 2);
    SubnetIsInside(net, 1, 1);
    SixBits();
    var node := CIDRSubnet(net, 3, 2).value;
    hide Pow2, Offset;
    assert node.len == net.len + 3;
  }

  /** Subnets of different placed roles, and of different worker pools, share no address. */
  lemma RolesAreApart(node: Prefix, nodeMask: int, r1: SubnetRole, i1: nat, r2: SubnetRole, i2: nat)
    requires Cidr.Valid(node) && nodeMask - node.len == 6 && nodeMask <= 32
    requires Placed(r1, i1) && Placed(r2, i2) && (r1 != r2 || (r1.Workers? && i1 != i2))
    ensures var a, b := GetSubnetForRole(node, nodeMask, r1, i1), GetSubnetForRole(node, nodeMask, r2, i2);
            a.Ok? && b.Ok? && a.value.len <= 32 && b.value.len <= 32 && Disjoint(a.value, b.value)
  {
    SixBits();
    hide Pow2, CIDRSubnet, Cidr.Valid;
    SubnetsAreDisjoint(node, 6, SubnetIndex(r1, i1, 6).value, SubnetIndex(r2, i2, 6).value);
  }

  /** The role subnets lie in the node range in this order, without gaps: control planes,
      load balancer, worker pools; the autoscaler's is the last one of the range. */
  lemma RolesLieInOrder(node: Prefix, nodeMask: int, index: nat)
    requires Cidr.Valid(node) && nodeMask - node.len == 6 && nodeMask <= 32 && index <= 60
    ensures var unit := Pow2(32 - nodeMask);
            && GetSubnetForRole(node, nodeMask, ControlPlanes, 0) == Ok(Prefix(node.base, nodeMask))
            && GetSubnetForRole(node, nodeMask, LoadBalancer, 0) == Ok(Prefix(node.base + unit, nodeMask))
            && GetSubnetForRole(node, nodeMask, Workers, index) ==
               Ok(Prefix(node.base + unit + (index + 1) * unit, nodeMask))
            && GetSubnetForRole(node, nodeMask, Autoscaler, 0).Ok?
            && GetSubnetForRole(node, nodeMask, Autoscaler, 0).value.len == nodeMask
            && GetSubnetForRole(node, nodeMask, Autoscaler, 0).value.base + unit == node.base + Size(node)
  {
    var unit := Pow2(32 - nodeMask);
    SixBits();
    Pow2Adds(6, 32 - nodeMask);
    RoleLiesAt(node, nodeMask, ControlPlanes, 0, 0);
    RoleLiesAt(node, nodeMask, LoadBalancer, 0, 1);
    RoleLiesAt(node, nodeMask, Workers, index, index + 2);
    RoleLiesAt(node, nodeMask, Autoscaler, 0, 63);
    hide Pow2, Cidr.Valid, GetSubnetForRole;
    OneMore(index + 1, unit);
  }

  lemma RoleLiesAt(node: Prefix, nodeMask: int, role: SubnetRole, index: nat, k: nat)
    requires Cidr.Valid(node) && nodeMask - node.len == 6 && nodeMask <= 32 && k < 64
    requires SubnetIndex(role, index, 6) == Ok(k)
    ensures GetSubnetForRole(node, nodeMask, role, index) == Ok(Prefix(node.base + k * Pow2(32 - nodeMask), nodeMask))
  {
    SixBits();
    SubnetIsInside(node, 6, k);
    hide Pow2, CIDRSubnet, Cidr.Valid, Within;
  }

  lemma UnknownRoleFails(node: Prefix, nodeMask: int, name: string, index: nat)
    requires Cidr.Valid(node)
    ensures GetSubnetForRole(node, nodeMask, UnknownRole(name), index).Error?
  {
  }

  /** Pool 61 gets the autoscaler's subnet; pools beyond get none. */
  lemma PastTheLastPool(node: Prefix, nodeMask: int, index: nat)
    requires Cidr.Valid(node) && nodeMask - node.len == 6 && nodeMask <= 32 && index > 60
    ensures if index == 61 then
              GetSubnetForRole(node, nodeMask, Workers, index) == GetSubnetForRole(node, nodeMask, Autoscaler, 0)
            else GetSubnetForRole(node, nodeMask, Workers, index).Error?
  {
    SixBits();
    hide Pow2, Offset;
  }
}
