/** What one completed command leaves behind: exactly what the remaining machines need, as long
    as Remove looks for the network that Create has made. */
module AzureTidy {
  import opened AzureCloud
  import opened AzureDriver
  import opened Wrappers

  /** What a machine needs of the network. */
  datatype Need = Need(nsg: Id, subnet: SubnetId, publicIp: bool)

  function NeedOf(cfg: Config): Need
    requires cfg.nsg.Some?
  {
    Need(cfg.nsg.value, cfg.SubnetRef(), !cfg.noPublicIP)
  }

  function NicFor(vm: Id, n: Need): Nic {
    Nic(n.nsg, n.subnet, if n.publicIp then Some(IpOf(vm)) else None)
  }

  // ----- what a completed command does, as one step

  function WithMachine(c: Cloud, vm: Id, n: Need): Cloud {
    c.(ips := if n.publicIp then c.ips + {IpOf(vm)} else c.ips,
       nics := c.nics[NicOf(vm) := NicFor(vm, n)],
       vms := c.vms[vm := NicOf(vm)])
  }

  function WithNetwork(c: Cloud, n: Need, rules: Rules, location: string): Cloud {
    c.(nsgs := c.nsgs[n.nsg := WrittenNsg(c, n.nsg, rules)],
       vnets := if n.subnet.vnet in c.vnets then c.vnets else c.vnets[n.subnet.vnet := location],
       subnets := if n.subnet in c.subnets then c.subnets else c.subnets[n.subnet := Subnet(None)])
  }

  function WithoutMachine(c: Cloud, vm: Id): Cloud {
    c.(vms := c.vms - {vm}, nics := c.nics - {NicOf(vm)}, ips := c.ips - {IpOf(vm)})
  }

  function WithoutNsg(c: Cloud, nsg: Id, usedInPool: bool): Cloud {
    if NsgDeletable(c, nsg, usedInPool) then c.(nsgs := c.nsgs - {nsg}) else c
  }

  function WithoutSubnet(c: Cloud, subnet: SubnetId): Cloud {
    if SubnetAttached(c, subnet) then c else c.(subnets := c.subnets - {subnet})
  }

  function WithoutVnet(c: Cloud, vnet: Id): Cloud {
    if VnetAttached(c, vnet) then c else c.(vnets := c.vnets - {vnet})
  }

  function WithoutNetwork(c: Cloud, nsg: Id, usedInPool: bool, subnet: SubnetId): Cloud {
    WithoutVnet(WithoutSubnet(WithoutNsg(c, nsg, usedInPool), subnet), subnet.vnet)
  }

  /** Only what is looked for goes, and nothing of the machines. */
  lemma OnlyNetworkGoes(c: Cloud, nsg: Id, usedInPool: bool, subnet: SubnetId)
    ensures var r := WithoutNetwork(c, nsg, usedInPool, subnet);
            && r.vms == c.vms && r.nics == c.nics && r.ips == c.ips
            && forall s :: s in c.subnets && s != subnet ==> s in r.subnets
  {
    var c1 := WithoutNsg(c, nsg, usedInPool);
    assert c1 == c.(nsgs := c1.nsgs);
    var c2 := WithoutSubnet(c1, subnet);
    assert c2 == c1 || c2 == c1.(subnets := c1.subnets - {subnet});
    var c3 := WithoutVnet(c2, subnet.vnet);
    assert c3 == c2.(vnets := c3.vnets);
  }

  lemma NetworkEffect(t: Trace, nsg: Id, plan: Plan)
    requires t.cfg.nsg == Some(nsg)
    ensures var r := EnsureNetwork(t, nsg, plan);
            && r.trace.job == t.job
            && (r.outcome == Done ==> r.trace.cloud == WithNetwork(t.cloud, NeedOf(t.cfg), t.cfg.rules, t.cfg.location))
  {
    var r1 := EnsureNsg(t, nsg, plan);
    assert r1.trace.job == t.job;
    assert r1.outcome == Done ==>
      r1.trace.cloud == t.cloud.(nsgs := t.cloud.nsgs[nsg := WrittenNsg(t.cloud, nsg, t.cfg.rules)]);
  }

  lemma MachineEffect(t: Trace, nsg: Id, plan: Plan)
    requires t.cfg.nsg == Some(nsg)
    ensures var r := PutMachine(t, nsg, plan);
            r.outcome == Done ==> r.trace.cloud == WithMachine(t.cloud, t.cfg.vm, NeedOf(t.cfg))
  {
  }

  lemma CreateEffect(c: Cloud, cfg: Config, plan: Plan)
    requires Create(c, cfg, plan).outcome == Done
    ensures cfg.nsg.Some?
    ensures Create(c, cfg, plan).trace.cloud
            == WithMachine(WithNetwork(c, NeedOf(cfg), cfg.rules, cfg.location), cfg.vm, NeedOf(cfg))
  {
    var t := Begin(Job(false, cfg), c);
    NetworkEffect(t, cfg.nsg.value, plan);
    MachineEffect(EnsureNetwork(t, cfg.nsg.value, plan).trace, cfg.nsg.value, plan);
  }

  lemma VmRemovalEffect(t: Trace, plan: Plan)
    ensures var r := RemoveVm(t, plan);
            && r.trace.job == t.job
            && (r.outcome == Done ==> r.trace.cloud == t.cloud.(vms := t.cloud.vms - {t.cfg.vm}))
  {
  }

  lemma NicRemovalEffect(t: Trace, plan: Plan)
    ensures var r := RemoveNic(t, plan);
            && r.trace.job == t.job
            && (r.outcome == Done ==> r.trace.cloud == t.cloud.(nics := t.cloud.nics - {NicOf(t.cfg.vm)}))
  {
  }

  lemma MachineRemovalEffect(t: Trace, plan: Plan)
    ensures var r := RemoveMachine(t, plan);
            && r.trace.job == t.job
            && (r.outcome == Done ==> r.trace.cloud == WithoutMachine(t.cloud, t.cfg.vm))
  {
    VmRemovalEffect(t, plan);
    var r1 := RemoveVm(t, plan);
    NicRemovalEffect(r1.trace, plan);
    var r2 := RemoveNic(r1.trace, plan);
    assert RemoveIp(r2.trace, plan).outcome == Done ==>
      RemoveIp(r2.trace, plan).trace.cloud == r2.trace.cloud.(ips := r2.trace.cloud.ips - {IpOf(r2.trace.cfg.vm)});
  }

  lemma NsgRemovalEffect(t: Trace, nsg: Id, plan: Plan)
    ensures var r := RemoveNsg(t, nsg, plan);
            && r.trace.job == t.job
            && (r.outcome == Done ==> r.trace.cloud == WithoutNsg(t.cloud, nsg, t.cfg.pooled))
  {
  }

  lemma SubnetRemovalEffect(t: Trace, plan: Plan)
    ensures var r := RemoveSubnet(t, plan);
            && r.trace.job == t.job
            && (r.outcome == Done ==> r.trace.cloud == WithoutSubnet(t.cloud, t.cfg.RemovedSubnet()))
  {
  }

  lemma VnetRemovalEffect(t: Trace, plan: Plan)
    ensures var r := RemoveVnet(t, plan);
            r.outcome == Done ==> r.trace.cloud == WithoutVnet(t.cloud, t.cfg.removedVnet)
  {
  }

  lemma NetworkRemovalEffect(t: Trace, nsg: Id, plan: Plan)
    ensures var r := RemoveNetwork(t, nsg, plan);
            r.outcome == Done ==>
              r.trace.cloud == WithoutNetwork(t.cloud, nsg, t.cfg.pooled, t.cfg.RemovedSubnet())
  {
    NsgRemovalEffect(t, nsg, plan);
    var t1 := RemoveNsg(t, nsg, plan).trace;
    SubnetRemovalEffect(t1, plan);
    VnetRemovalEffect(RemoveSubnet(t1, plan).trace, plan);
  }

  lemma RemoveEffect(c: Cloud, cfg: Config, plan: Plan)
    requires Remove(c, cfg, plan).outcome == Done
    ensures cfg.nsg.Some?
    ensures Remove(c, cfg, plan).trace.cloud
            == WithoutNetwork(WithoutMachine(c, cfg.vm), cfg.nsg.value, cfg.pooled, cfg.RemovedSubnet())
  {
    var t := Begin(Job(true, cfg), c);
    MachineRemovalEffect(t, plan);
    NetworkRemovalEffect(RemoveMachine(t, plan).trace, cfg.nsg.value, plan);
  }

  // ----- the machines there are, and what they need

  type Needs = map<Id, Need>

  function NsgsOf(ns: Needs): set<Id> { set m | m in ns :: ns[m].nsg }
  function SubnetsOf(ns: Needs): set<SubnetId> { set m | m in ns :: ns[m].subnet }
  function VnetsOf(ns: Needs): set<Id> { set m | m in ns :: ns[m].subnet.vnet }
  function NicsOf(ns: Needs): set<Id> { set m | m in ns :: NicOf(m) }
  function IpsOf(ns: Needs): set<Id> { set m | m in ns && ns[m].publicIp :: IpOf(m) }

  ghost predicate NicsDeployed(nics: map<Id, Nic>, ns: Needs) {
    nics.Keys == NicsOf(ns) && forall m :: m in ns ==> NicOf(m) in nics && nics[NicOf(m)] == NicFor(m, ns[m])
  }
  ghost predicate NsgsDeployed(nsgs: map<Id, Nsg>, ids: set<Id>) {
    nsgs.Keys == ids && forall x :: x in nsgs ==> nsgs[x].managed == Some("true")
  }
  ghost predicate SubnetsDeployed(subnets: map<SubnetId, Subnet>, ids: set<SubnetId>) {
    subnets.Keys == ids && forall x :: x in subnets ==> subnets[x].nsg == None
  }

  /** The cloud holds exactly the machines' own VMs, interfaces and addresses, and exactly
      the security groups, subnets and networks that some machine's interface uses. */
  ghost predicate Exactly(c: Cloud, ns: Needs) {
    && c.vms.Keys == ns.Keys && NicsDeployed(c.nics, ns) && c.ips == IpsOf(ns)
    && NsgsDeployed(c.nsgs, NsgsOf(ns)) && SubnetsDeployed(c.subnets, SubnetsOf(ns))
    && c.vnets.Keys == VnetsOf(ns)
  }

  lemma NothingNeedsNothing(c: Cloud)
    ensures Exactly(c, map[]) <==> c == EmptyCloud
  {
    assert NicsOf(map[]) == {} && IpsOf(map[]) == {};
    assert NsgsOf(map[]) == {} && SubnetsOf(map[]) == {} && VnetsOf(map[]) == {};
    if Exactly(c, map[]) {
      assert c.vms == map[] && c.nics == map[] && c.nsgs == map[] && c.vnets == map[] && c.subnets == map[];
    }
  }

  /** What one more machine needs. */
  lemma OneMoreNeeds(ns: Needs, m: Id, n: Need)
    requires m !in ns
    ensures var ns' := ns[m := n];
            && NsgsOf(ns') == NsgsOf(ns) + {n.nsg}
            && SubnetsOf(ns') == SubnetsOf(ns) + {n.subnet}
            && VnetsOf(ns') == VnetsOf(ns) + {n.subnet.vnet}
            && NicsOf(ns') == NicsOf(ns) + {NicOf(m)}
            && IpsOf(ns') == IpsOf(ns) + if n.publicIp then {IpOf(m)} else {}
  {
    var ns' := ns[m := n];
    assert m in ns' && ns'[m] == n;
    assert forall k :: k in ns ==> k in ns' && ns'[k] == ns[k];
  }

  lemma OwnNamesAreNew(ns: Needs, m: Id)
    requires m !in ns
    ensures NicOf(m) !in NicsOf(ns) && IpOf(m) !in IpsOf(ns)
  {
    forall k | k in ns ensures NicOf(k) != NicOf(m) && IpOf(k) != IpOf(m) { NamesAreInjective(k, m); }
  }

  lemma NicArrives(nics: map<Id, Nic>, ns: Needs, m: Id, n: Need)
    requires NicsDeployed(nics, ns) && m !in ns
    ensures NicsDeployed(nics[NicOf(m) := NicFor(m, n)], ns[m := n])
  {
    var nics', ns' := nics[NicOf(m) := NicFor(m, n)], ns[m := n];
    assert nics'.Keys == NicsOf(ns') by { OneMoreNeeds(ns, m, n); }
    forall k | k in ns' ensures NicOf(k) in nics' && nics'[NicOf(k)] == NicFor(k, ns'[k]) {
      if k != m { NamesAreInjective(k, m); }
    }
  }

  lemma NsgArrives(c: Cloud, ids: set<Id>, nsg: Id, rules: Rules)
    requires NsgsDeployed(c.nsgs, ids)
    ensures NsgsDeployed(c.nsgs[nsg := WrittenNsg(c, nsg, rules)], ids + {nsg})
  {
  }

  lemma NetworkArrives(c: Cloud, nsgs: set<Id>, subnets: set<SubnetId>, n: Need, rules: Rules, location: string)
    requires NsgsDeployed(c.nsgs, nsgs) && SubnetsDeployed(c.subnets, subnets)
    ensures var c' := WithNetwork(c, n, rules, location);
            && NsgsDeployed(c'.nsgs, nsgs + {n.nsg}) && SubnetsDeployed(c'.subnets, subnets + {n.subnet})
            && c'.vnets.Keys == c.vnets.Keys + {n.subnet.vnet}
  {
    NsgArrives(c, nsgs, n.nsg, rules);
  }

  lemma MachineArrives(c: Cloud, ns: Needs, m: Id, n: Need)
    requires m !in ns && c.vms.Keys == ns.Keys && NicsDeployed(c.nics, ns) && c.ips == IpsOf(ns)
    ensures var c', ns' := WithMachine(c, m, n), ns[m := n];
            c'.vms.Keys == ns'.Keys && NicsDeployed(c'.nics, ns') && c'.ips == IpsOf(ns')
  {
    NicArrives(c.nics, ns, m, n);
    assert IpsOf(ns[m := n]) == if n.publicIp then IpsOf(ns) + {IpOf(m)} else IpsOf(ns) by { OneMoreNeeds(ns, m, n); }
  }

  lemma NetworkNeeds(ns: Needs, m: Id, n: Need)
    requires m !in ns
    ensures NsgsOf(ns[m := n]) == NsgsOf(ns) + {n.nsg}
    ensures SubnetsOf(ns[m := n]) == SubnetsOf(ns) + {n.subnet}
    ensures VnetsOf(ns[m := n]) == VnetsOf(ns) + {n.subnet.vnet}
  {
    OneMoreNeeds(ns, m, n);
  }

  lemma ArrivalStaysExact(c: Cloud, ns: Needs, m: Id, n: Need, rules: Rules, location: string)
    requires Exactly(c, ns) && m !in ns
    ensures Exactly(WithMachine(WithNetwork(c, n, rules, location), m, n), ns[m := n])
  {
    NetworkArrives(c, NsgsOf(ns), SubnetsOf(ns), n, rules, location);
    MachineArrives(WithNetwork(c, n, rules, location), ns, m, n);
    NetworkNeeds(ns, m, n);
  }

  /** What is attached is what the machines need. */
  lemma NsgAttachedIffNeeded(c: Cloud, ns: Needs, x: Id)
    requires NicsDeployed(c.nics, ns)
    requires forall s :: s in c.subnets ==> c.subnets[s].nsg == None
    ensures NsgAttached(c, x) <==> x in NsgsOf(ns)
  {
    if NsgAttached(c, x) {
      var k :| k in c.nics && c.nics[k].nsg == x;
      assert k in NicsOf(ns);
    }
    if x in NsgsOf(ns) {
      var m :| m in ns && ns[m].nsg == x;
      assert c.nics[NicOf(m)].nsg == x;
    }
  }

  lemma SubnetAttachedIffNeeded(c: Cloud, ns: Needs, x: SubnetId)
    requires NicsDeployed(c.nics, ns)
    ensures SubnetAttached(c, x) <==> x in SubnetsOf(ns)
  {
    if SubnetAttached(c, x) {
      var k :| k in c.nics && c.nics[k].subnet == x;
      assert k in NicsOf(ns);
    }
    if x in SubnetsOf(ns) {
      var m :| m in ns && ns[m].subnet == x;
      assert c.nics[NicOf(m)].subnet == x;
    }
  }

  lemma NicLeaves(nics: map<Id, Nic>, ns: Needs, m: Id, n: Need)
    requires m !in ns && NicsDeployed(nics, ns[m := n])
    ensures NicsDeployed(nics - {NicOf(m)}, ns)
  {
    OneMoreNeeds(ns, m, n);
    OwnNamesAreNew(ns, m);
    forall k | k in ns ensures NicOf(k) != NicOf(m) && ns[m := n][k] == ns[k] { NamesAreInjective(k, m); }
  }

  lemma NsgLeaves(c: Cloud, ns: Needs, nsg: Id, usedInPool: bool)
    requires NicsDeployed(c.nics, ns)
    requires NsgsDeployed(c.nsgs, NsgsOf(ns) + {nsg}) && SubnetsDeployed(c.subnets, c.subnets.Keys)
    ensures NsgsDeployed(WithoutNsg(c, nsg, usedInPool).nsgs, NsgsOf(ns))
  {
    NsgAttachedIffNeeded(c, ns, nsg);
  }

  lemma SubnetLeaves(c: Cloud, ns: Needs, subnet: SubnetId)
    requires NicsDeployed(c.nics, ns)
    requires SubnetsDeployed(c.subnets, SubnetsOf(ns) + {subnet}) || SubnetsDeployed(c.subnets, SubnetsOf(ns))
    ensures SubnetsDeployed(WithoutSubnet(c, subnet).subnets, SubnetsOf(ns))
  {
    SubnetAttachedIffNeeded(c, ns, subnet);
  }

  lemma VnetLeaves(c: Cloud, ns: Needs, vnet: Id)
    requires c.subnets.Keys == SubnetsOf(ns)
    requires c.vnets.Keys == VnetsOf(ns) + {vnet} || c.vnets.Keys == VnetsOf(ns)
    ensures WithoutVnet(c, vnet).vnets.Keys == VnetsOf(ns)
  {
    forall m | m in ns ensures ns[m].subnet in c.subnets { assert ns[m].subnet in SubnetsOf(ns); }
    assert VnetAttached(c, vnet) <==> vnet in VnetsOf(ns);
  }

  lemma IpLeaves(ips: set<Id>, ns: Needs, m: Id, n: Need)
    requires m !in ns && ips == IpsOf(ns[m := n])
    ensures ips - {IpOf(m)} == IpsOf(ns)
  {
    OneMoreNeeds(ns, m, n);
    OwnNamesAreNew(ns, m);
  }

  lemma MachineLeaves(c: Cloud, ns: Needs, m: Id, n: Need)
    requires m !in ns
    requires var ns' := ns[m := n]; c.vms.Keys == ns'.Keys && NicsDeployed(c.nics, ns') && c.ips == IpsOf(ns')
    ensures var c' := WithoutMachine(c, m);
            c'.vms.Keys == ns.Keys && NicsDeployed(c'.nics, ns) && c'.ips == IpsOf(ns)
  {
    NicLeaves(c.nics, ns, m, n);
    IpLeaves(c.ips, ns, m, n);
  }

  lemma AlreadyNeeded(ns: Needs, subnet: SubnetId)
    ensures subnet in SubnetsOf(ns) ==> subnet.vnet in VnetsOf(ns)
    ensures subnet in SubnetsOf(ns) ==>
              SubnetsOf(ns) + {subnet} == SubnetsOf(ns) && VnetsOf(ns) + {subnet.vnet} == VnetsOf(ns)
  {
  }

  lemma SubnetAndVnetLeave(c: Cloud, ns: Needs, own: SubnetId, looked: SubnetId)
    requires NicsDeployed(c.nics, ns) && SubnetsDeployed(c.subnets, SubnetsOf(ns) + {own})
    requires c.vnets.Keys == VnetsOf(ns) + {own.vnet}
    requires looked == own || own in SubnetsOf(ns)
    ensures var c' := WithoutVnet(WithoutSubnet(c, looked), looked.vnet);
            && SubnetsDeployed(c'.subnets, SubnetsOf(ns)) && c'.vnets.Keys == VnetsOf(ns)
            && c' == c.(subnets := c'.subnets, vnets := c'.vnets)
  {
    AlreadyNeeded(ns, own);
    SubnetLeaves(c, ns, looked);
    VnetLeaves(WithoutSubnet(c, looked), ns, looked.vnet);
  }

  lemma NetworkLeaves(c: Cloud, ns: Needs, n: Need, usedInPool: bool, looked: SubnetId)
    requires NicsDeployed(c.nics, ns)
    requires NsgsDeployed(c.nsgs, NsgsOf(ns) + {n.nsg}) && SubnetsDeployed(c.subnets, SubnetsOf(ns) + {n.subnet})
    requires c.vnets.Keys == VnetsOf(ns) + {n.subnet.vnet}
    requires looked == n.subnet || n.subnet in SubnetsOf(ns)
    ensures var c' := WithoutNetwork(c, n.nsg, usedInPool, looked);
            && NsgsDeployed(c'.nsgs, NsgsOf(ns)) && SubnetsDeployed(c'.subnets, SubnetsOf(ns))
            && c'.vnets.Keys == VnetsOf(ns)
  {
    NsgLeaves(c, ns, n.nsg, usedInPool);
    SubnetAndVnetLeave(WithoutNsg(c, n.nsg, usedInPool), ns, n.subnet, looked);
  }

  /** Machine `m` leaves and the machines `ns` stay, when the subnet that is looked for on
      the way out is the machine's own, or the machine's own subnet is needed anyway. */
  lemma DepartureStaysExact(c: Cloud, ns: Needs, m: Id, n: Need, usedInPool: bool, looked: SubnetId)
    requires m !in ns && Exactly(c, ns[m := n])
    requires looked == n.subnet || n.subnet in SubnetsOf(ns)
    ensures Exactly(WithoutNetwork(WithoutMachine(c, m), n.nsg, usedInPool, looked), ns)
  {
    NetworkNeeds(ns, m, n);
    MachineLeaves(c, ns, m, n);
    OnlyNetworkGoes(WithoutMachine(c, m), n.nsg, usedInPool, looked);
    NetworkLeaves(WithoutMachine(c, m), ns, n, usedInPool, looked);
  }

  /** Otherwise the machine's subnet stays behind with nobody to use it. */
  lemma DepartureLeavesSubnet(c: Cloud, ns: Needs, m: Id, n: Need, usedInPool: bool, looked: SubnetId)
    requires m !in ns && Exactly(c, ns[m := n])
    requires looked != n.subnet && n.subnet !in SubnetsOf(ns)
    ensures n.subnet in WithoutNetwork(WithoutMachine(c, m), n.nsg, usedInPool, looked).subnets
  {
    NetworkNeeds(ns, m, n);
    OnlyNetworkGoes(WithoutMachine(c, m), n.nsg, usedInPool, looked);
  }

  lemma RemoveStaysExactOrNot(c: Cloud, ns: Needs, cfg: Config, plan: Plan)
    requires cfg.nsg.Some? && cfg.vm !in ns && Exactly(c, ns[cfg.vm := NeedOf(cfg)])
    requires Remove(c, cfg, plan).outcome == Done
    ensures Exactly(Remove(c, cfg, plan).trace.cloud, ns)
            <==> cfg.vnet == cfg.removedVnet || cfg.SubnetRef() in SubnetsOf(ns)
  {
    RemoveEffect(c, cfg, plan);
    if cfg.vnet == cfg.removedVnet || cfg.SubnetRef() in SubnetsOf(ns) {
      DepartureStaysExact(c, ns, cfg.vm, NeedOf(cfg), cfg.pooled, cfg.RemovedSubnet());
    } else {
      DepartureLeavesSubnet(c, ns, cfg.vm, NeedOf(cfg), cfg.pooled, cfg.RemovedSubnet());
    }
  }

  lemma CreateStaysExact(c: Cloud, ns: Needs, cfg: Config, plan: Plan)
    requires Exactly(c, ns) && cfg.vm !in ns && Create(c, cfg, plan).outcome == Done
    ensures cfg.nsg.Some? && Exactly(Create(c, cfg, plan).trace.cloud, ns[cfg.vm := NeedOf(cfg)])
  {
    CreateEffect(c, cfg, plan);
    ArrivalStaysExact(c, ns, cfg.vm, NeedOf(cfg), cfg.rules, cfg.location);
  }

  // ----- one machine alone

  lemma LifeLeavesNothing(cfg: Config, plan: Plan, plan': Plan)
    requires Create(EmptyCloud, cfg, plan).outcome == Done
    requires Remove(Create(EmptyCloud, cfg, plan).trace.cloud, cfg, plan').outcome == Done
    ensures Remove(Create(EmptyCloud, cfg, plan).trace.cloud, cfg, plan').trace.cloud == EmptyCloud
            <==> cfg.vnet == cfg.removedVnet
  {
    NothingNeedsNothing(EmptyCloud);
    CreateStaysExact(EmptyCloud, map[], cfg, plan);
    var c := Create(EmptyCloud, cfg, plan).trace.cloud;
    RemoveStaysExactOrNot(c, map[], cfg, plan');
    NothingNeedsNothing(Remove(c, cfg, plan').trace.cloud);
  }

  /** One machine's full life in an empty cloud leaves it empty exactly when its network is
      not named with a resource group: Remove looks for the unsplit name. */
  lemma LifeLeavesNothingExactly(flags: Flags, plan: Plan, plan': Plan)
    requires Create(EmptyCloud, Resolve(flags), plan).outcome == Done
    requires Remove(Create(EmptyCloud, Resolve(flags), plan).trace.cloud, Resolve(flags), plan').outcome == Done
    ensures var c := Create(EmptyCloud, Resolve(flags), plan).trace.cloud;
            Remove(c, Resolve(flags), plan').trace.cloud == EmptyCloud <==> ':' !in flags.virtualNetwork
  {
    LifeLeavesNothing(Resolve(flags), plan, plan');
    SameNetworkExactly(flags);
  }
}
