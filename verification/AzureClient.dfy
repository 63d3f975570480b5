/** Create and Remove as the driver runs them: call after call on a cloud that changes in
    place, passing references on through the deployment context. */
module AzureClient {
  import opened AzureCloud
  import opened AzureDriver
  import opened Wrappers

  class Driver {
    const cfg: Config
    var cloud: Cloud

    // The deployment context
    var nsgId: Option<Id>
    var subnetId: Option<SubnetId>
    var publicIpId: Option<Id>
    var nicId: Option<Id>

    ghost var trace: Trace

    ghost predicate Valid()
      reads this
    {
      && trace.cfg == cfg && trace.cloud == cloud
      && (publicIpId.Some? ==> publicIpId == Some(IpOf(cfg.vm)) && !cfg.noPublicIP)
    }

    constructor (cfg: Config, cloud: Cloud)
      ensures Valid() && this.cfg == cfg && this.cloud == cloud
    {
      this.cfg, this.cloud := cfg, cloud;
      nsgId, subnetId, publicIpId, nicId := None, None, None, None;
      trace := Begin(Job(false, cfg), cloud);
    }

    /** One request that changes the cloud. */
    method Request(e: Change, f: Fault) returns (o: Outcome)
      requires Valid()
      modifies `cloud, `trace
      ensures Valid() && Reply(trace, o) == old(trace).Attempt(e, f)
    {
      if f != Lost {
        cloud := Apply(cloud, cfg.vm, e);
        trace := trace.Do(e);
      }
      o := if f == Works then Done else Failed;
    }

    // ----- creation

    method CreateNetworkSecurityGroup(id: Id, plan: Plan) returns (o: Outcome)
      requires Valid()
      modifies `cloud, `trace, `nsgId
      ensures Valid() && Reply(trace, o) == EnsureNsg(old(trace), id, plan)
      ensures o == Done ==> nsgId == Some(id)
    {
      if plan(NsgGet) != Works { return Failed; }
      var nsg;
      if id in cloud.nsgs {
        nsg := cloud.nsgs[id];
      } else {
        if id.group != cfg.vm.group { return Failed; }
        nsg := Nsg(Some("true"), []);
      }
      if nsg.managed == Some("true") { nsg := nsg.(rules := cfg.rules); }
      o := Request(NsgWritten(id, nsg), plan(NsgPut));
      if o == Done { nsgId := Some(id); }
    }

    method CreateVirtualNetworkIfNotExists(plan: Plan) returns (o: Outcome)
      requires Valid()
      modifies `cloud, `trace
      ensures Valid() && Reply(trace, o) == EnsureVnet(old(trace), plan)
    {
      if plan(VnetGet) != Works { return Failed; }
      var id := cfg.vnet;
      if id in cloud.vnets {
        return if cloud.vnets[id] == cfg.location then Done else Failed;
      }
      o := Request(VnetMade(id, cfg.location), plan(VnetPut));
    }

    method CreateSubnet(plan: Plan) returns (o: Outcome)
      requires Valid()
      modifies `cloud, `trace, `subnetId
      ensures Valid() && Reply(trace, o) == EnsureSubnet(old(trace), plan)
      ensures o == Done ==> subnetId == Some(cfg.SubnetRef())
    {
      if plan(SubnetGet) != Works { return Failed; }
      var id := cfg.SubnetRef();
      if id in cloud.subnets {
        subnetId := Some(id);
        return Done;
      }
      o := Request(SubnetMade(id), plan(SubnetPut));
      if o == Done { subnetId := Some(id); }
    }

    method CreatePublicIPAddress(plan: Plan) returns (o: Outcome)
      requires Valid() && !cfg.noPublicIP
      modifies `cloud, `trace, `publicIpId
      ensures Valid() && Reply(trace, o) == EnsureIp(old(trace), plan)
      ensures o == Done ==> publicIpId == Some(IpOf(cfg.vm))
    {
      o := Request(IpMade, plan(IpPut));
      if o == Done { publicIpId := Some(IpOf(cfg.vm)); }
    }

    method CreateNetworkInterface(nsg: Id, subnet: SubnetId, ip: Option<Id>, plan: Plan) returns (o: Outcome)
      requires Valid()
      modifies `cloud, `trace, `nicId
      ensures Valid() && Reply(trace, o) == old(trace).Attempt(NicMade(Nic(nsg, subnet, ip)), plan(NicPut))
      ensures o == Done ==> nicId == Some(NicOf(cfg.vm))
    {
      o := Request(NicMade(Nic(nsg, subnet, ip)), plan(NicPut));
      if o == Done { nicId := Some(NicOf(cfg.vm)); }
    }

    /** The interface is built from what the earlier calls left in the deployment context, and
        it is the one that the configuration asks for. */
    method Create(plan: Plan) returns (o: Outcome)
      requires Valid()
      modifies this
      ensures Valid() && Reply(trace, o) == AzureDriver.Create(old(cloud), cfg, plan)
      ensures o == Done ==> nicId == Some(NicOf(cfg.vm))
    {
      trace := Begin(Job(false, cfg), cloud);
      if plan(Setup) != Works || cfg.nsg.None? { return Failed; }
      var nsgResource := cfg.nsg.value;
      if plan(GroupEnsure) != Works || plan(AvailabilitySet) != Works { return Failed; }
      o := CreateNetworkSecurityGroup(nsgResource, plan);
      if o != Done { return; }
      o := CreateVirtualNetworkIfNotExists(plan);
      if o != Done { return; }
      o := CreateSubnet(plan);
      if o != Done { return; }
      assert Reply(trace, Done) == EnsureNetwork(Begin(Job(false, cfg), old(cloud)), nsgResource, plan);
      o := CreateMachine(plan);
    }

    method CreateMachine(plan: Plan) returns (o: Outcome)
      requires Valid() && nsgId.Some? && subnetId == Some(cfg.SubnetRef())
      modifies `cloud, `trace, `publicIpId, `nicId
      ensures Valid() && Reply(trace, o) == PutMachine(old(trace), nsgId.value, plan)
      ensures o == Done ==> nicId == Some(NicOf(cfg.vm))
    {
      if !cfg.noPublicIP {
        o := CreatePublicIPAddress(plan);
        if o != Done { return; }
      }
      o := CreateNetworkInterface(nsgId.value, subnetId.value, publicIpId, plan);
      if o != Done { return; }
      if plan(StorageAndKey) != Works { return Failed; }
      o := Request(VmMade(nicId.value), plan(VmPut));
      if o != Done { return; }
      return if plan(AddressQuery) == Works then Done else Failed;
    }

    // ----- removal

    method DeleteVirtualMachineIfExists(plan: Plan) returns (o: Outcome)
      requires Valid()
      modifies `cloud, `trace
      ensures Valid() && Reply(trace, o) == RemoveVm(old(trace), plan)
    {
      if plan(VmGet) != Works { return Failed; }
      if cfg.vm !in cloud.vms { return Done; }
      if plan(VmGetAgain) != Works { return Failed; }
      o := Request(VmGone, plan(VmDelete));
      if o != Done { return; }
      return if plan(DiskDelete) == Works then Done else Failed;
    }

    method DeleteNetworkInterfaceIfExists(plan: Plan) returns (o: Outcome)
      requires Valid()
      modifies `cloud, `trace
      ensures Valid() && Reply(trace, o) == RemoveNic(old(trace), plan)
    {
      if plan(NicGet) != Works { return Failed; }
      if NicOf(cfg.vm) !in cloud.nics { return Done; }
      o := Request(NicGone, plan(NicDelete));
    }

    method DeletePublicIPAddressIfExists(plan: Plan) returns (o: Outcome)
      requires Valid()
      modifies `cloud, `trace
      ensures Valid() && Reply(trace, o) == RemoveIp(old(trace), plan)
    {
      if plan(IpGet) != Works { return Failed; }
      if IpOf(cfg.vm) !in cloud.ips { return Done; }
      o := Request(IpGone, plan(IpDelete));
    }

    /** The refreshed reference lists what is attached; only an empty list allows deletion. */
    method DeleteNetworkSecurityGroupIfExists(id: Id, usedInPool: bool, plan: Plan) returns (o: Outcome)
      requires Valid() && usedInPool == cfg.pooled
      modifies `cloud, `trace
      ensures Valid() && Reply(trace, o) == RemoveNsg(old(trace), id, plan)
    {
      if plan(NsgGet) != Works { return Failed; }
      if id !in cloud.nsgs { return Done; }
      if plan(NsgRefresh) != Works { return Crashed; }
      var nics := set k | k in cloud.nics && cloud.nics[k].nsg == id;
      var subnets := set s | s in cloud.subnets && cloud.subnets[s].nsg == Some(id);
      var orphaned := |subnets| == 0 && |nics| == 0;
      assert orphaned <==> !NsgAttached(cloud, id) by {
        assert forall k :: k in cloud.nics && cloud.nics[k].nsg == id ==> k in nics;
        assert forall s :: s in cloud.subnets && cloud.subnets[s].nsg == Some(id) ==> s in subnets;
      }
      if !orphaned || (usedInPool && cloud.nsgs[id].managed.None?) { return Done; }
      o := Request(NsgGone(id), plan(NsgDelete));
    }

    method CleanupSubnetIfExists(plan: Plan) returns (o: Outcome)
      requires Valid()
      modifies `cloud, `trace
      ensures Valid() && Reply(trace, o) == RemoveSubnet(old(trace), plan)
    {
      if plan(SubnetGet) != Works { return Failed; }
      var id := cfg.RemovedSubnet();
      if id !in cloud.subnets { return Done; }
      if plan(SubnetRefresh) != Works { return Crashed; }
      var ipConfigurations := set k | k in cloud.nics && cloud.nics[k].subnet == id;
      assert forall k :: k in cloud.nics && cloud.nics[k].subnet == id ==> k in ipConfigurations;
      if |ipConfigurations| != 0 { return Done; }
      o := Request(SubnetGone(id), plan(SubnetDelete));
    }

    method CleanupVirtualNetworkIfExists(plan: Plan) returns (o: Outcome)
      requires Valid()
      modifies `cloud, `trace
      ensures Valid() && Reply(trace, o) == RemoveVnet(old(trace), plan)
    {
      if plan(VnetGet) != Works { return Failed; }
      var id := cfg.removedVnet;
      if id !in cloud.vnets { return Done; }
      if plan(VnetRefresh) != Works { return Crashed; }
      var subnets := set s | s in cloud.subnets && s.vnet == id;
      assert forall s :: s in cloud.subnets && s.vnet == id ==> s in subnets;
      if |subnets| != 0 { return Done; }
      o := Request(VnetGone(id), plan(VnetDelete));
    }

    method CleanupAvailabilitySetIfExists(plan: Plan) returns (o: Outcome)
      requires Valid()
      ensures Valid() && Reply(trace, o) == KeepAvailabilitySet(trace, plan)
    {
      if plan(AvailabilitySet) != Works { return Failed; }
      if plan(AvailabilityCheck) != Works { return Crashed; }
      return Done;
    }

    method RemoveOwn(plan: Plan) returns (o: Outcome)
      requires Valid()
      modifies `cloud, `trace
      ensures Valid() && Reply(trace, o) == RemoveMachine(old(trace), plan)
    {
      o := DeleteVirtualMachineIfExists(plan);
      if o != Done { return; }
      o := DeleteNetworkInterfaceIfExists(plan);
      if o != Done { return; }
      o := DeletePublicIPAddressIfExists(plan);
    }

    method RemoveShared(nsgResource: Id, plan: Plan) returns (o: Outcome)
      requires Valid()
      modifies `cloud, `trace
      ensures Valid() && Reply(trace, o) == RemoveNetwork(old(trace), nsgResource, plan)
    {
      o := DeleteNetworkSecurityGroupIfExists(nsgResource, cfg.pooled, plan);
      if o != Done { return; }
      o := CleanupAvailabilitySetIfExists(plan);
      if o != Done { return; }
      o := CleanupSubnetIfExists(plan);
      if o != Done { return; }
      o := CleanupVirtualNetworkIfExists(plan);
    }

    method Remove(plan: Plan) returns (o: Outcome)
      requires Valid()
      modifies `cloud, `trace
      ensures Valid() && Reply(trace, o) == AzureDriver.Remove(old(cloud), cfg, plan)
    {
      trace := Begin(Job(true, cfg), cloud);
      if cfg.vm.group == "" || plan(Setup) != Works || cfg.nsg.None? { return Failed; }
      o := RemoveOwn(plan);
      if o != Done { return; }
      o := RemoveShared(cfg.nsg.value, plan);
    }
  }
}
