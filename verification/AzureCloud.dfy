/** The part of an Azure subscription that the driver creates and removes, and what
    it means for it to be consistent.  Nothing here refuses a request: a delete of a
    resource that is still in use succeeds, so every guarantee below is owed to the
    driver's own control flow. */
module AzureCloud {
  import opened Text
  import opened Wrappers

  /** A resource: its resource group and its name inside the group.  A machine is
      identified by its VM's `Id`. */
  datatype Id = Id(group: string, name: string)
  datatype SubnetId = SubnetId(vnet: Id, name: string)

  type Rules = seq<string>

  /** `managed` is the value of the `rancher-managed` tag. */
  datatype Nsg = Nsg(managed: Option<string>, rules: Rules)
  datatype Subnet = Subnet(nsg: Option<Id>)
  datatype Nic = Nic(nsg: Id, subnet: SubnetId, ip: Option<Id>)

  datatype Cloud = Cloud(
    nsgs: map<Id, Nsg>,
    vnets: map<Id, string>,           // to their location
    subnets: map<SubnetId, Subnet>,
    ips: set<Id>,
    nics: map<Id, Nic>,
    vms: map<Id, Id>)                 // to their network interface

  const EmptyCloud := Cloud(map[], map[], map[], {}, map[], map[])

  /** The options of a machine.  `armId` is what azure.ParseResourceID makes of `nsg`; it is
      only consulted when `nsg` contains a slash. */
  datatype Flags = Flags(
    group: string, machine: string, location: string,
    nsg: string, armId: Option<Id>, rules: Rules,
    virtualNetwork: string, subnet: string, noPublicIP: bool)

  /** What the driver makes of them.  `vnet` is where Create puts the network and `removedVnet`
      where Remove looks for it. */
  datatype Config = Config(
    vm: Id, location: string, nsg: Option<Id>, pooled: bool, rules: Rules,
    vnet: Id, removedVnet: Id, subnet: string, noPublicIP: bool)
  {
    function SubnetRef(): SubnetId { SubnetId(vnet, subnet) }
    function RemovedSubnet(): SubnetId { SubnetId(removedVnet, subnet) }

    /** The interface that Create asks for. */
    function NicSpec(nsgId: Id): Nic {
      Nic(nsgId, SubnetRef(), if noPublicIP then None else Some(IpOf(vm)))
    }
  }

  /** resolveNSGReference */
  function ResolveNsg(f: Flags): Option<Id> {
    if '/' in f.nsg then f.armId
    else Some(Id(f.group, if f.nsg == "" then f.machine + "-firewall" else f.nsg))
  }

  /** parseVirtualNetwork */
  function ParseVirtualNetwork(name: string, defaultGroup: string): Id {
    if ':' in name then Id(Before(name, ':'), After(name, ':')) else Id(defaultGroup, name)
  }

  /** Remove does not split the group off the network's name. */
  function Resolve(f: Flags): Config {
    Config(Id(f.group, f.machine), f.location, ResolveNsg(f), |f.nsg| > 0, f.rules,
           ParseVirtualNetwork(f.virtualNetwork, f.group), Id(f.group, f.virtualNetwork), f.subnet, f.noPublicIP)
  }

  /** Remove looks for the network that Create has made exactly when its name has no group. */
  lemma SameNetworkExactly(f: Flags)
    ensures Resolve(f).vnet == Resolve(f).removedVnet <==> ':' !in f.virtualNetwork
  {
    if ':' in f.virtualNetwork { assert |After(f.virtualNetwork, ':')| < |f.virtualNetwork|; }
  }

  function NicOf(vm: Id): Id { Id(vm.group, vm.name + "-nic") }
  function IpOf(vm: Id): Id { Id(vm.group, vm.name + "-ip") }

  /** Resource names tell machines apart. */
  lemma NamesAreInjective(a: Id, b: Id)
    ensures NicOf(a) == NicOf(b) ==> a == b
    ensures IpOf(a) == IpOf(b) ==> a == b
  {
    assert a.name == (a.name + "-nic")[..|a.name + "-nic"| - 4];
    assert b.name == (b.name + "-nic")[..|b.name + "-nic"| - 4];
    assert a.name == (a.name + "-ip")[..|a.name + "-ip"| - 3];
    assert b.name == (b.name + "-ip")[..|b.name + "-ip"| - 3];
  }

  predicate NsgAttached(c: Cloud, nsg: Id) {
    || (exists k :: k in c.nics && c.nics[k].nsg == nsg)
    || (exists s :: s in c.subnets && c.subnets[s].nsg == Some(nsg))
  }
  predicate SubnetAttached(c: Cloud, subnet: SubnetId) {
    exists k :: k in c.nics && c.nics[k].subnet == subnet
  }
  predicate VnetAttached(c: Cloud, vnet: Id) {
    exists s :: s in c.subnets && s.vnet == vnet
  }

  /** Every reference leads to a resource that exists. */
  ghost predicate NoDanglingReference(c: Cloud) {
    && (forall v :: v in c.vms ==> c.vms[v] in c.nics)
    && (forall k :: k in c.nics ==>
         && c.nics[k].nsg in c.nsgs
         && c.nics[k].subnet in c.subnets
         && (c.nics[k].ip.Some? ==> c.nics[k].ip.value in c.ips))
    && (forall s :: s in c.subnets ==>
         && s.vnet in c.vnets
         && (c.subnets[s].nsg.Some? ==> c.subnets[s].nsg.value in c.nsgs))
  }

  /** An interface or address named after a machine is used by no other machine. */
  ghost predicate NamesRespected(c: Cloud) {
    && (forall v, m: Id :: v in c.vms && c.vms[v] == NicOf(m) ==> v == m)
    && (forall k, m: Id :: k in c.nics && c.nics[k].ip == Some(IpOf(m)) ==> k == NicOf(m))
  }

  ghost predicate Integrity(c: Cloud) { NoDanglingReference(c) && NamesRespected(c) }
}
