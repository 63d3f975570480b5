/** How Create and Remove end, and what Remove has done to a security group by then, told from
    the cloud and the plan alone; and the inputs on which they do what no one asked for. */
module AzureFaults {
  import opened AzureCloud
  import opened AzureDriver
  import opened AzureSafety
  import opened AzureTidy
  import opened Wrappers

  // ----- commands that meet no fault

  ghost predicate AllWork(plan: Plan) { forall call :: plan(call) == Works }

  /** When nothing fails on the way, Create completes exactly if the security group can be
      resolved and exists or may be made, and the network is new or in the right location. */
  lemma WorkingCreateCompletes(c: Cloud, cfg: Config, plan: Plan)
    requires AllWork(plan)
    ensures Create(c, cfg, plan).outcome == Done <==>
            && cfg.nsg.Some? && (cfg.nsg.value in c.nsgs || cfg.nsg.value.group == cfg.vm.group)
            && (cfg.vnet in c.vnets ==> c.vnets[cfg.vnet] == cfg.location)
  {
    if cfg.nsg.Some? {
      var t := Begin(Job(false, cfg), c);
      var r := EnsureNsg(t, cfg.nsg.value, plan);
      assert r.outcome == Done ==> r.trace.cloud.vnets == c.vnets && r.trace.job == t.job;
    }
  }

  // ----- the stages of a creation

  predicate NsgIsReached(c: Cloud, cfg: Config, nsg: Id, plan: Plan) {
    && plan(Setup) == plan(GroupEnsure) == plan(AvailabilitySet) == plan(NsgGet) == Works
    && (nsg in c.nsgs || nsg.group == cfg.vm.group)
  }

  /** The network is there in the right location, or can be made. */
  predicate VnetIsReady(c: Cloud, cfg: Config, plan: Plan) {
    && plan(VnetGet) == Works
    && (if cfg.vnet in c.vnets then c.vnets[cfg.vnet] == cfg.location else plan(VnetPut) == Works)
  }

  predicate SubnetIsReady(c: Cloud, cfg: Config, plan: Plan) {
    plan(SubnetGet) == Works && (cfg.SubnetRef() in c.subnets || plan(SubnetPut) == Works)
  }

  predicate NetworkIsReady(c: Cloud, cfg: Config, nsg: Id, plan: Plan) {
    && NsgIsReached(c, cfg, nsg, plan) && plan(NsgPut) == Works
    && VnetIsReady(c, cfg, plan) && SubnetIsReady(c, cfg, plan)
  }

  predicate IpIsReady(cfg: Config, plan: Plan) { cfg.noPublicIP || plan(IpPut) == Works }

  lemma NsgEndsExactly(t: Trace, nsg: Id, plan: Plan)
    ensures var r := EnsureNsg(t, nsg, plan);
            && (r.outcome == Done <==>
                 && plan(NsgGet) == plan(NsgPut) == Works
                 && (nsg in t.cloud.nsgs || nsg.group == t.cfg.vm.group))
            && r.outcome != Crashed && r.trace.job == t.job && r.trace.cloud == t.cloud.(nsgs := r.trace.cloud.nsgs)
  {
  }

  lemma VnetEndsExactly(t: Trace, c: Cloud, plan: Plan)
    requires t.cloud.vnets == c.vnets
    ensures var r := EnsureVnet(t, plan);
            && (r.outcome == Done <==> VnetIsReady(c, t.cfg, plan))
            && r.outcome != Crashed && r.trace.job == t.job && r.trace.cloud == t.cloud.(vnets := r.trace.cloud.vnets)
  {
  }

  lemma SubnetEndsExactly(t: Trace, c: Cloud, plan: Plan)
    requires t.cloud.subnets == c.subnets
    ensures var r := EnsureSubnet(t, plan);
            && (r.outcome == Done <==> SubnetIsReady(c, t.cfg, plan))
            && r.outcome != Crashed && r.trace.job == t.job
            && r.trace.cloud == t.cloud.(subnets := r.trace.cloud.subnets)
  {
  }

  lemma NetworkEndsExactly(t: Trace, nsg: Id, c: Cloud, plan: Plan)
    requires t.cloud == c && t.cfg.nsg == Some(nsg) && plan(Setup) == Works
    ensures var r := EnsureNetwork(t, nsg, plan);
            && (r.outcome == Done <==> NetworkIsReady(c, t.cfg, nsg, plan)) && r.outcome != Crashed
            && r.trace.job == t.job
            && r.trace.cloud.vms == c.vms && r.trace.cloud.nics == c.nics && r.trace.cloud.ips == c.ips
  {
    var r := EnsureNetwork(t, nsg, plan);
    if plan(GroupEnsure) != Works || plan(AvailabilitySet) != Works {
      assert r == Reply(t, Failed);
      return;
    }
    var r1 := EnsureNsg(t, nsg, plan);
    NsgEndsExactly(t, nsg, plan);
    if r1.outcome != Done {
      assert r == r1;
      return;
    }
    var r2 := EnsureVnet(r1.trace, plan);
    VnetEndsExactly(r1.trace, c, plan);
    if r2.outcome != Done {
      assert r == r2;
      return;
    }
    var r3 := EnsureSubnet(r2.trace, plan);
    SubnetEndsExactly(r2.trace, c, plan);
    assert r == r3;
  }

  /** How far the second half gets, and what is there then: each resource if its request was not
      lost and all before it worked. */
  lemma MachineEndsExactly(t: Trace, nsg: Id, c: Cloud, plan: Plan)
    requires t.cloud.vms == c.vms && t.cloud.nics == c.nics
    ensures var r := PutMachine(t, nsg, plan);
            && (r.outcome == Done <==>
                 && IpIsReady(t.cfg, plan) && plan(NicPut) == Works
                 && plan(StorageAndKey) == plan(VmPut) == plan(AddressQuery) == Works)
            && (t.cfg.vm in r.trace.cloud.vms <==>
                 || t.cfg.vm in c.vms
                 || (&& IpIsReady(t.cfg, plan) && plan(NicPut) == plan(StorageAndKey) == Works
                     && plan(VmPut) != Lost))
            && (NicOf(t.cfg.vm) in r.trace.cloud.nics <==>
                 NicOf(t.cfg.vm) in c.nics || (IpIsReady(t.cfg, plan) && plan(NicPut) != Lost))
            && r.outcome != Crashed
  {
    var r := PutMachine(t, nsg, plan);
    var r1 := EnsureIp(t, plan);
    if r1.outcome != Done {
      assert r == r1;
      return;
    }
    var r2 := EnsureNic(r1.trace, nsg, plan);
    if r2.outcome != Done {
      assert r == r2;
      return;
    }
    assert r == PutVm(r2.trace, plan);
  }

  /** For every plan: when Create completes, and when its VM and interface are there afterwards. It
      never panics. */
  lemma CreateEndsExactly(c: Cloud, cfg: Config, nsg: Id, plan: Plan)
    requires cfg.nsg == Some(nsg)
    ensures var r := Create(c, cfg, plan);
            var ready := NetworkIsReady(c, cfg, nsg, plan) && IpIsReady(cfg, plan);
            && (r.outcome == Done <==>
                 && ready && plan(NicPut) == Works
                 && plan(StorageAndKey) == plan(VmPut) == plan(AddressQuery) == Works)
            && (cfg.vm in r.trace.cloud.vms <==>
                 || cfg.vm in c.vms
                 || (ready && plan(NicPut) == plan(StorageAndKey) == Works && plan(VmPut) != Lost))
            && (NicOf(cfg.vm) in r.trace.cloud.nics <==> NicOf(cfg.vm) in c.nics || (ready && plan(NicPut) != Lost))
            && r.outcome != Crashed
  {
    var t := Begin(Job(false, cfg), c);
    var r := Create(c, cfg, plan);
    if plan(Setup) != Works {
      assert r == Reply(t, Failed);
      return;
    }
    NetworkEndsExactly(t, nsg, c, plan);
    var r1 := EnsureNetwork(t, nsg, plan);
    if r1.outcome != Done {
      assert r == r1;
      return;
    }
    MachineEndsExactly(r1.trace, nsg, c, plan);
    assert r == PutMachine(r1.trace, nsg, plan);
  }

  // ----- the stages of a removal

  /** The machine's own resources can be removed. */
  predicate MachineGoes(c: Cloud, cfg: Config, plan: Plan) {
    && plan(VmGet) == Works
    && (cfg.vm in c.vms ==> plan(VmGetAgain) == plan(VmDelete) == plan(DiskDelete) == Works)
    && plan(NicGet) == Works && (NicOf(cfg.vm) in c.nics ==> plan(NicDelete) == Works)
    && plan(IpGet) == Works && (IpOf(cfg.vm) in c.ips ==> plan(IpDelete) == Works)
  }

  /** Then the security group: it is gone already, or is seen and can be removed if need be. */
  predicate NsgGoes(c: Cloud, cfg: Config, nsg: Id, plan: Plan) {
    && plan(NsgGet) == Works
    && (nsg in c.nsgs ==>
         && plan(NsgRefresh) == Works
         && (NsgDeletable(WithoutMachine(c, cfg.vm), nsg, cfg.pooled) ==> plan(NsgDelete) == Works))
  }

  /** Then, after the availability set, the subnet. */
  predicate SubnetGoes(c: Cloud, cfg: Config, plan: Plan) {
    && plan(SubnetGet) == Works
    && (cfg.RemovedSubnet() in c.subnets ==>
         && plan(SubnetRefresh) == Works
         && (!SubnetAttached(WithoutMachine(c, cfg.vm), cfg.RemovedSubnet()) ==> plan(SubnetDelete) == Works))
  }

  lemma MachineGoesExactly(t: Trace, plan: Plan)
    ensures var r := RemoveMachine(t, plan);
            && (r.outcome == Done <==> MachineGoes(t.cloud, t.cfg, plan)) && r.outcome != Crashed
            && r.trace.job == t.job && r.trace.cloud.nsgs == t.cloud.nsgs
  {
    VmRemovalEffect(t, plan);
    var r1 := RemoveVm(t, plan);
    NicRemovalEffect(r1.trace, plan);
  }

  lemma NsgGoesExactly(t: Trace, nsg: Id, c: Cloud, plan: Plan)
    requires t.cloud == WithoutMachine(c, t.cfg.vm)
    ensures var r := RemoveNsg(t, nsg, plan);
            && (r.outcome == Done <==> NsgGoes(c, t.cfg, nsg, plan))
            && (r.outcome == Crashed <==> plan(NsgGet) == Works && nsg in c.nsgs && plan(NsgRefresh) != Works)
            && r.trace.job == t.job && r.trace.cloud == t.cloud.(nsgs := r.trace.cloud.nsgs)
  {
  }

  lemma SubnetGoesExactly(t: Trace, c: Cloud, plan: Plan)
    requires t.cloud.subnets == c.subnets && t.cloud.nics == WithoutMachine(c, t.cfg.vm).nics
    ensures var r := RemoveSubnet(t, plan);
            && (r.outcome == Done <==> SubnetGoes(c, t.cfg, plan))
            && (r.outcome == Crashed <==>
                 plan(SubnetGet) == Works && t.cfg.RemovedSubnet() in c.subnets && plan(SubnetRefresh) != Works)
            && r.trace.job == t.job && r.trace.cloud == t.cloud.(subnets := r.trace.cloud.subnets)
  {
  }

  lemma VnetCrashesExactly(t: Trace, plan: Plan)
    ensures var r := RemoveVnet(t, plan);
            && (r.outcome == Crashed <==>
                 plan(VnetGet) == Works && t.cfg.removedVnet in t.cloud.vnets && plan(VnetRefresh) != Works)
            && r.trace.cloud == t.cloud.(vnets := r.trace.cloud.vnets)
  {
  }

  /** And last the network. */
  predicate VnetGoes(c: Cloud, c2: Cloud, cfg: Config, plan: Plan) {
    && plan(VnetGet) == Works
    && (cfg.removedVnet in c.vnets ==>
         plan(VnetRefresh) == Works && (!VnetAttached(c2, cfg.removedVnet) ==> plan(VnetDelete) == Works))
  }

  lemma VnetGoesExactly(t: Trace, c: Cloud, plan: Plan)
    requires t.cloud.vnets == c.vnets
    ensures RemoveVnet(t, plan).outcome == Done <==> VnetGoes(c, t.cloud, t.cfg, plan)
  {
  }

  /** The cloud that Remove looks at in the end, if it gets there. */
  function BeforeVnet(c: Cloud, cfg: Config, nsg: Id): Cloud {
    WithoutSubnet(WithoutNsg(WithoutMachine(c, cfg.vm), nsg, cfg.pooled), cfg.RemovedSubnet())
  }

  lemma NetworkGoesExactly(t: Trace, nsg: Id, c: Cloud, plan: Plan)
    requires t.cloud == WithoutMachine(c, t.cfg.vm)
    ensures RemoveNetwork(t, nsg, plan).outcome == Done <==>
            && NsgGoes(c, t.cfg, nsg, plan) && plan(AvailabilitySet) == plan(AvailabilityCheck) == Works
            && SubnetGoes(c, t.cfg, plan) && VnetGoes(c, BeforeVnet(c, t.cfg, nsg), t.cfg, plan)
  {
    var r := RemoveNetwork(t, nsg, plan);
    NsgGoesExactly(t, nsg, c, plan);
    var r1 := RemoveNsg(t, nsg, plan);
    if r1.outcome != Done {
      assert r == r1;
      return;
    }
    NsgRemovalEffect(t, nsg, plan);
    var keep := KeepAvailabilitySet(r1.trace, plan);
    if keep.outcome != Done {
      assert r == keep;
      return;
    }
    SubnetGoesExactly(r1.trace, c, plan);
    var r2 := RemoveSubnet(r1.trace, plan);
    if r2.outcome != Done {
      assert r == r2;
      return;
    }
    SubnetRemovalEffect(r1.trace, plan);
    VnetGoesExactly(r2.trace, c, plan);
    assert r == RemoveVnet(r2.trace, plan);
  }

  // ----- the nil dereference

  /** A removal reaches a resource that exists and cannot be looked at again, or the check of the
      availability set finds no list. */
  predicate MeetsFailedRefresh(c: Cloud, cfg: Config, nsg: Id, plan: Plan) {
    || (plan(NsgGet) == Works && nsg in c.nsgs && plan(NsgRefresh) != Works)
    || (NsgGoes(c, cfg, nsg, plan) && plan(AvailabilitySet) == Works &&
        (|| plan(AvailabilityCheck) != Works
         || (plan(SubnetGet) == Works && cfg.RemovedSubnet() in c.subnets && plan(SubnetRefresh) != Works)
         || (SubnetGoes(c, cfg, plan) &&
             plan(VnetGet) == Works && cfg.removedVnet in c.vnets && plan(VnetRefresh) != Works)))
  }

  lemma NetworkCrashesExactly(t: Trace, nsg: Id, c: Cloud, plan: Plan)
    requires t.cloud == WithoutMachine(c, t.cfg.vm)
    ensures RemoveNetwork(t, nsg, plan).outcome == Crashed <==> MeetsFailedRefresh(c, t.cfg, nsg, plan)
  {
    var r := RemoveNetwork(t, nsg, plan);
    NsgGoesExactly(t, nsg, c, plan);
    var r1 := RemoveNsg(t, nsg, plan);
    if r1.outcome != Done {
      assert r == r1;
      return;
    }
    var keep := KeepAvailabilitySet(r1.trace, plan);
    if keep.outcome != Done {
      assert r == keep;
      return;
    }
    SubnetGoesExactly(r1.trace, c, plan);
    var r2 := RemoveSubnet(r1.trace, plan);
    if r2.outcome != Done {
      assert r == r2;
      return;
    }
    VnetCrashesExactly(r2.trace, plan);
    assert r == RemoveVnet(r2.trace, plan);
  }

  /** Remove gets to the network part. */
  predicate ReachesNetwork(c: Cloud, cfg: Config, plan: Plan) {
    cfg.vm.group != "" && plan(Setup) == Works && cfg.nsg.Some? && MachineGoes(c, cfg, plan)
  }

  lemma NetworkIsLast(c: Cloud, cfg: Config, plan: Plan)
    ensures var r := Remove(c, cfg, plan);
            if ReachesNetwork(c, cfg, plan) then
              var t := RemoveMachine(Begin(Job(true, cfg), c), plan).trace;
              t.cfg == cfg && t.cloud == WithoutMachine(c, cfg.vm) && r == RemoveNetwork(t, cfg.nsg.value, plan)
            else r.outcome == Failed && r.trace.cloud.nsgs == c.nsgs
  {
    var t := Begin(Job(true, cfg), c);
    MachineGoesExactly(t, plan);
    MachineRemovalEffect(t, plan);
  }

  /** Remove panics, whatever else fails, if and only if it reaches a security group, subnet or
      network that exists and that the refresh inside CanBeDeleted fails to see, or an availability
      set without a list of VMs. */
  lemma RemoveCrashesExactly(c: Cloud, cfg: Config, plan: Plan)
    ensures Remove(c, cfg, plan).outcome == Crashed
            <==> ReachesNetwork(c, cfg, plan) && MeetsFailedRefresh(c, cfg, cfg.nsg.value, plan)
  {
    NetworkIsLast(c, cfg, plan);
    if ReachesNetwork(c, cfg, plan) {
      var t := RemoveMachine(Begin(Job(true, cfg), c), plan).trace;
      NetworkCrashesExactly(t, cfg.nsg.value, c, plan);
    }
  }

  /** For every plan: when Remove completes. */
  lemma RemoveEndsExactly(c: Cloud, cfg: Config, plan: Plan)
    ensures Remove(c, cfg, plan).outcome == Done <==>
            && ReachesNetwork(c, cfg, plan)
            && NsgGoes(c, cfg, cfg.nsg.value, plan) && plan(AvailabilitySet) == plan(AvailabilityCheck) == Works
            && SubnetGoes(c, cfg, plan) && VnetGoes(c, BeforeVnet(c, cfg, cfg.nsg.value), cfg, plan)
  {
    NetworkIsLast(c, cfg, plan);
    if ReachesNetwork(c, cfg, plan) {
      var t := RemoveMachine(Begin(Job(true, cfg), c), plan).trace;
      NetworkGoesExactly(t, cfg.nsg.value, c, plan);
    }
  }

  predicate IsRefresh(call: Call) {
    call.NsgRefresh? || call.AvailabilityCheck? || call.SubnetRefresh? || call.VnetRefresh?
  }

  /** A resource is there that a failing refresh does not see, or an availability set's list of VMs
      is missing. */
  predicate HidesResource(c: Cloud, cfg: Config, nsg: Id, plan: Plan) {
    || (nsg in c.nsgs && plan(NsgRefresh) != Works)
    || plan(AvailabilityCheck) != Works
    || (cfg.RemovedSubnet() in c.subnets && plan(SubnetRefresh) != Works)
    || (cfg.removedVnet in c.vnets && plan(VnetRefresh) != Works)
  }

  lemma OnlyRefreshesFail(c: Cloud, cfg: Config, nsg: Id, plan: Plan)
    requires forall call :: !IsRefresh(call) ==> plan(call) == Works
    ensures MachineGoes(c, cfg, plan) && plan(Setup) == Works
    ensures MeetsFailedRefresh(c, cfg, nsg, plan) <==> HidesResource(c, cfg, nsg, plan)
  {
  }

  /** When only refreshes can fail, Remove panics if and only if one hides a resource. */
  lemma FailedRefreshCrashes(c: Cloud, cfg: Config, nsg: Id, plan: Plan)
    requires cfg.vm.group != "" && cfg.nsg == Some(nsg) && forall call :: !IsRefresh(call) ==> plan(call) == Works
    ensures Remove(c, cfg, plan).outcome == Crashed <==> HidesResource(c, cfg, nsg, plan)
  {
    OnlyRefreshesFail(c, cfg, nsg, plan);
    RemoveCrashesExactly(c, cfg, plan);
  }

  /** A network that is there, and one failed refresh. */
  lemma OneFailedRefreshCrashes() returns (c: Cloud, cfg: Config, plan: Plan)
    ensures Integrity(c) && Remove(c, cfg, plan).outcome == Crashed
  {
    var net := Id("group", "net");
    c := EmptyCloud.(vnets := map[net := "west"]);
    cfg := Config(Id("group", "machine"), "west", Some(Id("group", "nsg")), true, [], net, net, "subnet", true);
    plan := (call: Call) => if call.VnetRefresh? then Lost else Works;
    FailedRefreshCrashes(c, cfg, cfg.nsg.value, plan);
  }

  // ----- security groups of the user's own

  lemma NsgIsGoneExactly(t: Trace, nsg: Id, plan: Plan, x: Id)
    requires x in t.cloud.nsgs
    ensures x !in RemoveNsg(t, nsg, plan).trace.cloud.nsgs <==>
            && nsg == x && !NsgAttached(t.cloud, x) && (t.cfg.pooled ==> t.cloud.nsgs[x].managed.Some?)
            && plan(NsgGet) == plan(NsgRefresh) == Works && plan(NsgDelete) != Lost
  {
  }

  lemma SubnetKeepsNsgs(t: Trace, plan: Plan)
    ensures RemoveSubnet(t, plan).trace.cloud.nsgs == t.cloud.nsgs
  {
  }

  lemma NetworkAndNsg(t: Trace, nsg: Id, plan: Plan, x: Id)
    requires x in t.cloud.nsgs
    ensures x !in RemoveNetwork(t, nsg, plan).trace.cloud.nsgs <==>
            && nsg == x && !NsgAttached(t.cloud, x) && (t.cfg.pooled ==> t.cloud.nsgs[x].managed.Some?)
            && plan(NsgGet) == plan(NsgRefresh) == Works && plan(NsgDelete) != Lost
  {
    var r := RemoveNetwork(t, nsg, plan);
    var r1 := RemoveNsg(t, nsg, plan);
    NsgIsGoneExactly(t, nsg, plan, x);
    if r1.outcome != Done {
      assert r == r1;
      return;
    }
    var keep := KeepAvailabilitySet(r1.trace, plan);
    if keep.outcome != Done {
      assert r == keep;
      return;
    }
    var r2 := RemoveSubnet(r1.trace, plan);
    SubnetKeepsNsgs(r1.trace, plan);
    if r2.outcome != Done {
      assert r == r2;
      return;
    }
    VnetCrashesExactly(r2.trace, plan);
    assert r == RemoveVnet(r2.trace, plan);
  }

  /** However it ends, a removal has deleted a security group if and only if it is the machine's,
      nothing is attached to it any more once the machine is gone, it carries the tag, whatever its
      value, or the machine has no option for it, the removal gets that far, and the delete was
      not lost. */
  lemma RemovalDeletesNsgExactly(c: Cloud, cfg: Config, plan: Plan, x: Id)
    requires x in c.nsgs
    ensures x !in Remove(c, cfg, plan).trace.cloud.nsgs <==>
            && cfg.nsg == Some(x) && !NsgAttached(WithoutMachine(c, cfg.vm), x)
            && (cfg.pooled ==> c.nsgs[x].managed.Some?)
            && ReachesNetwork(c, cfg, plan)
            && plan(NsgGet) == plan(NsgRefresh) == Works && plan(NsgDelete) != Lost
  {
    NetworkIsLast(c, cfg, plan);
    if ReachesNetwork(c, cfg, plan) {
      var t := RemoveMachine(Begin(Job(true, cfg), c), plan).trace;
      NetworkAndNsg(t, cfg.nsg.value, plan, x);
    }
  }

  /** In particular a security group of the user's own: only if the machine falls back to its name. */
  lemma RemovalDeletesUserNsgExactly(c: Cloud, cfg: Config, plan: Plan, x: Id)
    requires UserOwned(c, x)
    ensures x !in Remove(c, cfg, plan).trace.cloud.nsgs <==>
            && FallsBackTo(cfg, x) && !NsgAttached(WithoutMachine(c, cfg.vm), x)
            && ReachesNetwork(c, cfg, plan)
            && plan(NsgGet) == plan(NsgRefresh) == Works && plan(NsgDelete) != Lost
  {
    RemovalDeletesNsgExactly(c, cfg, plan, x);
  }

  /** When nothing fails on the way, Remove completes whatever there is left to remove. */
  lemma WorkingRemoveCompletes(c: Cloud, cfg: Config, plan: Plan)
    requires AllWork(plan)
    ensures Remove(c, cfg, plan).outcome == Done <==> cfg.vm.group != "" && cfg.nsg.Some?
  {
    NetworkIsLast(c, cfg, plan);
    if ReachesNetwork(c, cfg, plan) {
      WorkingNetworkCompletes(RemoveMachine(Begin(Job(true, cfg), c), plan).trace, cfg.nsg.value, plan);
    }
  }

  lemma WorkingNetworkCompletes(t: Trace, nsg: Id, plan: Plan)
    requires AllWork(plan)
    ensures RemoveNetwork(t, nsg, plan).outcome == Done
  {
  }

  // ----- what is left behind, and what is taken

  /** A machine whose network is named with its group: both commands complete, and the network
      is still there. */
  lemma PrefixedNetworkIsLeft(plan: Plan) returns (flags: Flags)
    requires AllWork(plan)
    ensures Create(EmptyCloud, Resolve(flags), plan).outcome == Done
    ensures var c := Create(EmptyCloud, Resolve(flags), plan).trace.cloud;
            Remove(c, Resolve(flags), plan).outcome == Done && Remove(c, Resolve(flags), plan).trace.cloud != EmptyCloud
  {
    flags := Flags("group", "machine", "west", "", None, [], "group:net", "subnet", true);
    var cfg := Resolve(flags);
    assert flags.virtualNetwork[5] == ':';
    WorkingCreateCompletes(EmptyCloud, cfg, plan);
    WorkingRemoveCompletes(Create(EmptyCloud, cfg, plan).trace.cloud, cfg, plan);
    LifeLeavesNothingExactly(flags, plan, plan);
  }

  /** A machine without the option for a security group: its removal takes along a group of the
      user's that has the name the driver falls back to. */
  lemma FallbackRemovesUserNsg(plan: Plan) returns (c: Cloud, flags: Flags, x: Id)
    requires AllWork(plan)
    ensures UserOwned(c, x) && x !in Remove(c, Resolve(flags), plan).trace.cloud.nsgs
  {
    x := Id("group", "machine-firewall");
    c := EmptyCloud.(nsgs := map[x := Nsg(None, [])]);
    flags := Flags("group", "machine", "west", "", None, [], "net", "subnet", true);
    assert flags.machine + "-firewall" == "machine-firewall";
    var cfg := Resolve(flags);
    assert !NsgAttached(WithoutMachine(c, cfg.vm), x);
    RemovalDeletesUserNsgExactly(c, cfg, plan, x);
  }
}
