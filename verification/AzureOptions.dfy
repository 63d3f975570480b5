/** What Create and Remove do, told from the options as they are given. */
module AzureOptions {
  import opened AzureCloud
  import opened AzureDriver
  import opened AzureSafety
  import opened AzureTidy
  import opened AzureFaults
  import opened Text
  import opened Wrappers

  // ----- what the options name

  /** The security group that the option stands for: by name in the machine's resource group, by
      Azure's own identifier, or the machine's own one if there is no option. */
  predicate NamesNsg(f: Flags, x: Id) {
    && (f.nsg == "" ==> x == Id(f.group, f.machine + "-firewall"))
    && (f.nsg != "" && '/' !in f.nsg ==> x == Id(f.group, f.nsg))
    && ('/' in f.nsg ==> f.armId == Some(x))
  }

  /** The network that the option stands for: "name" in the machine's resource group, or
      "group:name". */
  ghost predicate NamesVnet(f: Flags, x: Id) {
    && (':' !in f.virtualNetwork ==> x == Id(f.group, f.virtualNetwork))
    && (forall g, v :: ':' !in g && f.virtualNetwork == g + ":" + v ==> x == Id(g, v))
  }

  lemma VnetIsNamed(f: Flags)
    ensures NamesVnet(f, Resolve(f).vnet)
  {
    forall g, v | ':' !in g && f.virtualNetwork == g + ":" + v ensures Resolve(f).vnet == Id(g, v) {
      CutAtConcat(g, v, ':');
      assert f.virtualNetwork == g + [':'] + v;
    }
  }

  lemma NsgIsNamed(f: Flags)
    ensures Resolve(f).nsg.Some? ==> NamesNsg(f, Resolve(f).nsg.value)
    ensures Resolve(f).nsg.None? <==> '/' in f.nsg && f.armId.None?
  {
  }

  // ----- a completed Create

  /** What is there of the machine: its VM, the interface and its references. */
  predicate HasMachine(c: Cloud, vm: Id, nic: Id, ip: Option<Id>, nsg: Id, subnet: SubnetId) {
    && vm in c.vms && c.vms[vm] == nic
    && nic in c.nics && c.nics[nic] == Nic(nsg, subnet, ip)
    && (ip.Some? ==> ip.value in c.ips)
    && nsg in c.nsgs && subnet in c.subnets && subnet.vnet in c.vnets
  }

  lemma CreatedMachine(c: Cloud, cfg: Config, plan: Plan)
    requires Create(c, cfg, plan).outcome == Done
    ensures cfg.nsg.Some?
    ensures HasMachine(Create(c, cfg, plan).trace.cloud, cfg.vm, NicOf(cfg.vm),
                       if cfg.noPublicIP then None else Some(IpOf(cfg.vm)), cfg.nsg.value, cfg.SubnetRef())
  {
    CreateEffect(c, cfg, plan);
  }

  /** A completed Create has made the machine in the group and under the name of the options, in
      the network, subnet and security group that they name. */
  lemma CompletedCreate(c: Cloud, f: Flags, plan: Plan) returns (nsg: Id, vnet: Id)
    requires Create(c, Resolve(f), plan).outcome == Done
    ensures NamesNsg(f, nsg) && NamesVnet(f, vnet)
    ensures var ip := if f.noPublicIP then None else Some(Id(f.group, f.machine + "-ip"));
            HasMachine(Create(c, Resolve(f), plan).trace.cloud, Id(f.group, f.machine), Id(f.group, f.machine + "-nic"),
                       ip, nsg, SubnetId(vnet, f.subnet))
  {
    CreatedMachine(c, Resolve(f), plan);
    NsgIsNamed(f);
    VnetIsNamed(f);
    nsg, vnet := Resolve(f).nsg.value, Resolve(f).vnet;
  }

  lemma CreatedNetwork(c: Cloud, cfg: Config, plan: Plan)
    requires Create(c, cfg, plan).outcome == Done
    ensures cfg.nsg.Some?
    ensures var c' := Create(c, cfg, plan).trace.cloud;
            && c'.nsgs.Keys == c.nsgs.Keys + {cfg.nsg.value}
            && c'.nsgs[cfg.nsg.value] == WrittenNsg(c, cfg.nsg.value, cfg.rules)
            && cfg.vnet in c'.vnets && (cfg.vnet !in c.vnets ==> c'.vnets[cfg.vnet] == cfg.location)
  {
    CreateEffect(c, cfg, plan);
  }

  /** Its security group then has the rules of the options if it is new or carries the tag, and is
      as it was otherwise; a network that was not there is in the location of the options. */
  lemma CompletedCreateNetwork(c: Cloud, f: Flags, plan: Plan, x: Id)
    requires Create(c, Resolve(f), plan).outcome == Done && Resolve(f).nsg == Some(x)
    ensures var c' := Create(c, Resolve(f), plan).trace.cloud;
            && x in c'.nsgs && NamesNsg(f, x)
            && (x !in c.nsgs ==> c'.nsgs[x] == Nsg(Some("true"), f.rules))
            && (x in c.nsgs && c.nsgs[x].managed == Some("true") ==> c'.nsgs[x] == Nsg(Some("true"), f.rules))
            && (x in c.nsgs && c.nsgs[x].managed != Some("true") ==> c'.nsgs[x] == c.nsgs[x])
            && (Resolve(f).vnet !in c.vnets ==> Resolve(f).vnet in c'.vnets && c'.vnets[Resolve(f).vnet] == f.location)
  {
    CreatedNetwork(c, Resolve(f), plan);
    NsgIsNamed(f);
  }

  // ----- a completed Remove

  lemma RemovedMachine(c: Cloud, cfg: Config, plan: Plan)
    requires Remove(c, cfg, plan).outcome == Done
    ensures var c' := Remove(c, cfg, plan).trace.cloud;
            cfg.vm !in c'.vms && NicOf(cfg.vm) !in c'.nics && IpOf(cfg.vm) !in c'.ips
  {
    RemoveEffect(c, cfg, plan);
    OnlyNetworkGoes(WithoutMachine(c, cfg.vm), cfg.nsg.value, cfg.pooled, cfg.RemovedSubnet());
  }

  /** After a completed Remove, nothing under the machine's names is left in its group. */
  lemma CompletedRemove(c: Cloud, f: Flags, plan: Plan)
    requires Remove(c, Resolve(f), plan).outcome == Done
    ensures var c' := Remove(c, Resolve(f), plan).trace.cloud;
            && Id(f.group, f.machine) !in c'.vms && Id(f.group, f.machine + "-nic") !in c'.nics
            && Id(f.group, f.machine + "-ip") !in c'.ips
  {
    RemovedMachine(c, Resolve(f), plan);
  }

  // ----- security groups of the user's own

  /** However it ends, a removal keeps every group of the user's own if the machine has an option
      for its security group; and without one, all but the one with the machine's own name. */
  lemma NamedGroupIsKept(c: Cloud, f: Flags, plan: Plan, x: Id)
    requires UserOwned(c, x) && (f.nsg != "" || x != Id(f.group, f.machine + "-firewall"))
    ensures x in Remove(c, Resolve(f), plan).trace.cloud.nsgs
  {
    RemovalDeletesUserNsgExactly(c, Resolve(f), plan, x);
  }

  /** Exactly which removals without faults delete a group of the user's own. */
  lemma WorkingRemovalDeletesUserNsgExactly(c: Cloud, f: Flags, plan: Plan, x: Id)
    requires UserOwned(c, x) && AllWork(plan) && f.group != ""
    ensures x !in Remove(c, Resolve(f), plan).trace.cloud.nsgs <==>
            && f.nsg == "" && x == Id(f.group, f.machine + "-firewall")
            && !NsgAttached(WithoutMachine(c, Id(f.group, f.machine)), x)
  {
    RemovalDeletesUserNsgExactly(c, Resolve(f), plan, x);
  }

  /** A command as it is given. */
  datatype Order = Order(removing: bool, flags: Flags, plan: Plan)

  function Resolved(o: Order): Command { Command(Job(o.removing, Resolve(o.flags)), o.plan) }

  function AllResolved(os: seq<Order>): seq<Command> {
    seq(|os|, i requires 0 <= i < |os| => Resolved(os[i]))
  }

  /** The removal of a machine without an option for its security group, whose own one is `x`. */
  predicate FallsBack(o: Order, x: Id) {
    o.removing && o.flags.nsg == "" && x == Id(o.flags.group, o.flags.machine + "-firewall")
  }

  /** Over every run of commands of any machines, each failing anywhere, a group without the tag is
      neither changed nor deleted by machines that name it. */
  lemma OrdersKeepUserNsg(c: Cloud, os: seq<Order>, x: Id)
    requires UserOwned(c, x) && forall i :: 0 <= i < |os| ==> !FallsBack(os[i], x)
    ensures x in Run(c, AllResolved(os)).nsgs && Run(c, AllResolved(os)).nsgs[x] == c.nsgs[x]
  {
    var cmds := AllResolved(os);
    forall i | 0 <= i < |cmds| ensures !(cmds[i].job.removing && FallsBackTo(cmds[i].job.cfg, x)) {
      assert !FallsBack(os[i], x);
    }
    RunKeepsUserNsg(c, cmds, x);
  }
}
