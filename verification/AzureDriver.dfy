/** Create and Remove of the Azure driver as functions of the cloud and of the faults met
    on the way.  A run keeps the log of the changes it has made to the cloud so far. */
module AzureDriver {
  import opened AzureCloud
  import opened Wrappers

  /** Every call to Azure that a run makes, and the other points where it can stop. */
  datatype Call =
    | Setup | GroupEnsure | AvailabilitySet
    | NsgGet | NsgPut | VnetGet | VnetPut | SubnetGet | SubnetPut
    | IpPut | NicPut | StorageAndKey | VmPut | AddressQuery
    | VmGet | VmGetAgain | VmDelete | DiskDelete | NicGet | NicDelete | IpGet | IpDelete
    | AvailabilityCheck | NsgRefresh | NsgDelete | SubnetRefresh | SubnetDelete | VnetRefresh | VnetDelete

  /** A call works, is lost before it has an effect, or reports an error after it had one. */
  datatype Fault = Works | Lost | Late

  type Plan = Call -> Fault

  /** Crashed: a nil dereference, met when a refresh inside CanBeDeleted fails, or the check of an
      availability set finds no list of VMs. */
  datatype Outcome = Done | Failed | Crashed

  /** A change to the cloud.  The interface, address and VM are those of the run's machine; the VM
      is made with the interface it is told. */
  datatype Change =
    | NsgWritten(nsgId: Id, nsg: Nsg) | VnetMade(vnetId: Id, location: string) | SubnetMade(subnetId: SubnetId)
    | IpMade | NicMade(nic: Nic) | VmMade(nicId: Id) | VmGone | NicGone | IpGone
    | NsgGone(nsgId: Id) | SubnetGone(subnetId: SubnetId) | VnetGone(vnetId: Id)

  function Apply(c: Cloud, vm: Id, e: Change): Cloud {
    match e
    case NsgWritten(id, nsg) => c.(nsgs := c.nsgs[id := nsg])
    case VnetMade(id, location) => c.(vnets := c.vnets[id := location])
    case SubnetMade(id) => c.(subnets := c.subnets[id := Subnet(None)])
    case IpMade => c.(ips := c.ips + {IpOf(vm)})
    case NicMade(nic) => c.(nics := c.nics[NicOf(vm) := nic])
    case VmMade(nic) => c.(vms := c.vms[vm := nic])
    case VmGone => c.(vms := c.vms - {vm})
    case NicGone => c.(nics := c.nics - {NicOf(vm)})
    case IpGone => c.(ips := c.ips - {IpOf(vm)})
    case NsgGone(id) => c.(nsgs := c.nsgs - {id})
    case SubnetGone(id) => c.(subnets := c.subnets - {id})
    case VnetGone(id) => c.(vnets := c.vnets - {id})
  }

  /** Create or Remove of a machine. */
  datatype Job = Job(removing: bool, cfg: Config)

  /** A job under way since cloud `start`, and the changes it has made so far. */
  datatype Trace = Trace(job: Job, start: Cloud, log: seq<Change>, cloud: Cloud) {
    const cfg := job.cfg

    function Do(e: Change): Trace {
      Trace(job, start, log + [e], Apply(cloud, cfg.vm, e))
    }
    function Attempt(e: Change, f: Fault): Reply {
      match f
      case Works => Reply(Do(e), Done)
      case Lost => Reply(this, Failed)
      case Late => Reply(Do(e), Failed)
    }
    /** A point where the run can only go on or stop. */
    function Gate(f: Fault): Reply { Reply(this, if f == Works then Done else Failed) }
  }

  function Begin(job: Job, c: Cloud): Trace { Trace(job, c, [], c) }

  datatype Reply = Reply(trace: Trace, outcome: Outcome) {
    predicate IsFailure() { outcome != Done }
    function PropagateFailure(): Reply requires IsFailure() { this }
    function Extract(): Trace requires !IsFailure() { trace }
  }

  // ----- creation

  function WrittenNsg(c: Cloud, id: Id, rules: Rules): Nsg {
    var nsg := if id in c.nsgs then c.nsgs[id] else Nsg(Some("true"), []);
    if nsg.managed == Some("true") then nsg.(rules := rules) else nsg
  }

  function EnsureNsg(t: Trace, id: Id, plan: Plan): Reply {
    var t :- t.Gate(plan(NsgGet));
    if id !in t.cloud.nsgs && id.group != t.cfg.vm.group then Reply(t, Failed)
    else t.Attempt(NsgWritten(id, WrittenNsg(t.cloud, id, t.cfg.rules)), plan(NsgPut))
  }

  function EnsureVnet(t: Trace, plan: Plan): Reply {
    var t :- t.Gate(plan(VnetGet));
    var id := t.cfg.vnet;
    if id in t.cloud.vnets then Reply(t, if t.cloud.vnets[id] == t.cfg.location then Done else Failed)
    else t.Attempt(VnetMade(id, t.cfg.location), plan(VnetPut))
  }

  function EnsureSubnet(t: Trace, plan: Plan): Reply {
    var t :- t.Gate(plan(SubnetGet));
    var id := t.cfg.SubnetRef();
    if id in t.cloud.subnets then Reply(t, Done)
    else t.Attempt(SubnetMade(id), plan(SubnetPut))
  }

  function EnsureIp(t: Trace, plan: Plan): Reply {
    if t.cfg.noPublicIP then Reply(t, Done) else t.Attempt(IpMade, plan(IpPut))
  }

  function EnsureNic(t: Trace, nsg: Id, plan: Plan): Reply {
    t.Attempt(NicMade(t.cfg.NicSpec(nsg)), plan(NicPut))
  }

  function EnsureNetwork(t: Trace, nsg: Id, plan: Plan): Reply {
    var t :- t.Gate(plan(GroupEnsure));
    var t :- t.Gate(plan(AvailabilitySet));
    var t :- EnsureNsg(t, nsg, plan);
    var t :- EnsureVnet(t, plan);
    EnsureSubnet(t, plan)
  }

  function PutMachine(t: Trace, nsg: Id, plan: Plan): Reply {
    var t :- EnsureIp(t, plan);
    var t :- EnsureNic(t, nsg, plan);
    PutVm(t, plan)
  }

  function PutVm(t: Trace, plan: Plan): Reply {
    var t :- t.Gate(plan(StorageAndKey));
    var t :- t.Attempt(VmMade(NicOf(t.cfg.vm)), plan(VmPut));
    t.Gate(plan(AddressQuery))
  }

  function Create(c: Cloud, cfg: Config, plan: Plan): Reply {
    var t :- Begin(Job(false, cfg), c).Gate(plan(Setup));
    var nsg := cfg.nsg;
    if nsg.None? then Reply(t, Failed)
    else
      var t :- EnsureNetwork(t, nsg.value, plan);
      PutMachine(t, nsg.value, plan)
  }

  // ----- removal

  function RemoveVm(t: Trace, plan: Plan): Reply {
    var t :- t.Gate(plan(VmGet));
    if t.cfg.vm !in t.cloud.vms then Reply(t, Done)
    else
      var t :- t.Gate(plan(VmGetAgain));
      var t :- t.Attempt(VmGone, plan(VmDelete));
      t.Gate(plan(DiskDelete))
  }

  function RemoveNic(t: Trace, plan: Plan): Reply {
    var t :- t.Gate(plan(NicGet));
    if NicOf(t.cfg.vm) !in t.cloud.nics then Reply(t, Done)
    else t.Attempt(NicGone, plan(NicDelete))
  }

  function RemoveIp(t: Trace, plan: Plan): Reply {
    var t :- t.Gate(plan(IpGet));
    if IpOf(t.cfg.vm) !in t.cloud.ips then Reply(t, Done)
    else t.Attempt(IpGone, plan(IpDelete))
  }

  /** nsgCleanup.CanBeDeleted */
  predicate NsgDeletable(c: Cloud, id: Id, usedInPool: bool) {
    id in c.nsgs && !NsgAttached(c, id) && (usedInPool ==> c.nsgs[id].managed.Some?)
  }

  function RemoveNsg(t: Trace, id: Id, plan: Plan): Reply {
    var t :- t.Gate(plan(NsgGet));
    if id !in t.cloud.nsgs then Reply(t, Done)
    else if plan(NsgRefresh) != Works then Reply(t, Crashed)
    else if !NsgDeletable(t.cloud, id, t.cfg.pooled) then Reply(t, Done)
    else t.Attempt(NsgGone(id), plan(NsgDelete))
  }

  function RemoveSubnet(t: Trace, plan: Plan): Reply {
    var t :- t.Gate(plan(SubnetGet));
    var id := t.cfg.RemovedSubnet();
    if id !in t.cloud.subnets then Reply(t, Done)
    else if plan(SubnetRefresh) != Works then Reply(t, Crashed)
    else if SubnetAttached(t.cloud, id) then Reply(t, Done)
    else t.Attempt(SubnetGone(id), plan(SubnetDelete))
  }

  function RemoveVnet(t: Trace, plan: Plan): Reply {
    var t :- t.Gate(plan(VnetGet));
    var id := t.cfg.removedVnet;
    if id !in t.cloud.vnets then Reply(t, Done)
    else if plan(VnetRefresh) != Works then Reply(t, Crashed)
    else if VnetAttached(t.cloud, id) then Reply(t, Done)
    else t.Attempt(VnetGone(id), plan(VnetDelete))
  }

  /** Availability sets are never deleted: the check is false for any list of VMs, and dereferences
      a missing one. */
  function KeepAvailabilitySet(t: Trace, plan: Plan): Reply {
    var t :- t.Gate(plan(AvailabilitySet));
    Reply(t, if plan(AvailabilityCheck) == Works then Done else Crashed)
  }

  function RemoveMachine(t: Trace, plan: Plan): Reply {
    var t :- RemoveVm(t, plan);
    var t :- RemoveNic(t, plan);
    RemoveIp(t, plan)
  }

  function RemoveNetwork(t: Trace, nsg: Id, plan: Plan): Reply {
    var t :- RemoveNsg(t, nsg, plan);
    var t :- KeepAvailabilitySet(t, plan);
    var t :- RemoveSubnet(t, plan);
    RemoveVnet(t, plan)
  }

  function Remove(c: Cloud, cfg: Config, plan: Plan): Reply {
    var t := Begin(Job(true, cfg), c);
    if cfg.vm.group == "" then Reply(t, Failed)
    else
      var t :- t.Gate(plan(Setup));
      var nsg := cfg.nsg;
      if nsg.None? then Reply(t, Failed)
      else
        var t :- RemoveMachine(t, plan);
        RemoveNetwork(t, nsg.value, plan)
  }
}
