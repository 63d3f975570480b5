/** What runs of completed commands leave behind in the resource groups that they are about, and
    that they leave everything else alone. */
module AzureRuns {
  import opened AzureCloud
  import opened AzureDriver
  import opened AzureTidy
  import opened Wrappers

  // ----- parts of the cloud

  function Kept<K, V>(m: map<K, V>, f: K -> bool): map<K, V> { map k | k in m && f(k) :: m[k] }
  function KeptIds(s: set<Id>, f: Id -> bool): set<Id> { set k | k in s && f(k) }

  lemma PutInside<K, V>(m: map<K, V>, k: K, v: V, f: K -> bool, h: K -> bool)
    requires f(k) && !h(k)
    ensures Kept(m[k := v], f) == Kept(m, f)[k := v]
    ensures Kept(m[k := v], h) == Kept(m, h)
  {
  }

  lemma DropInside<K, V>(m: map<K, V>, k: K, f: K -> bool, h: K -> bool)
    requires f(k) && !h(k)
    ensures Kept(m - {k}, f) == Kept(m, f) - {k}
    ensures Kept(m - {k}, h) == Kept(m, h)
  {
  }

  lemma IdInside(s: set<Id>, k: Id, f: Id -> bool, h: Id -> bool)
    requires f(k) && !h(k)
    ensures KeptIds(s + {k}, f) == KeptIds(s, f) + {k} && KeptIds(s + {k}, h) == KeptIds(s, h)
    ensures KeptIds(s - {k}, f) == KeptIds(s, f) - {k} && KeptIds(s - {k}, h) == KeptIds(s, h)
  {
  }

  lemma KeptDecides<K(!new), V>(a: map<K, V>, b: map<K, V>, f: K -> bool, h: K -> bool)
    requires Kept(a, f) == Kept(b, f) && Kept(a, h) == Kept(b, h)
    requires forall k :: f(k) || h(k)
    ensures a == b
  {
    forall k | k in a ensures k in b && a[k] == b[k] { assert k in Kept(a, f) || k in Kept(a, h); }
    forall k | k in b ensures k in a { assert k in Kept(b, f) || k in Kept(b, h); }
  }

  function In(g: set<string>, inside: bool): Id -> bool { (k: Id) => (k.group in g) == inside }
  function SubnetIn(g: set<string>, inside: bool): SubnetId -> bool { (s: SubnetId) => (s.vnet.group in g) == inside }

  /** What of the cloud is in one of the resource groups `g`, or what is not. */
  function Part(c: Cloud, g: set<string>, inside: bool): Cloud {
    Cloud(
      Kept(c.nsgs, In(g, inside)), Kept(c.vnets, In(g, inside)), Kept(c.subnets, SubnetIn(g, inside)),
      KeptIds(c.ips, In(g, inside)), Kept(c.nics, In(g, inside)), Kept(c.vms, In(g, inside)))
  }

  /** Both parts together are the cloud. */
  lemma PartsMakeTheCloud(a: Cloud, b: Cloud, g: set<string>)
    requires Part(a, g, true) == Part(b, g, true) && Part(a, g, false) == Part(b, g, false)
    ensures a == b
  {
    var f, h := In(g, true), In(g, false);
    KeptDecides(a.nsgs, b.nsgs, f, h);
    KeptDecides(a.vnets, b.vnets, f, h);
    KeptDecides(a.subnets, b.subnets, SubnetIn(g, true), SubnetIn(g, false));
    KeptDecides(a.nics, b.nics, f, h);
    KeptDecides(a.vms, b.vms, f, h);
    assert a.ips == KeptIds(a.ips, f) + KeptIds(a.ips, h) && b.ips == KeptIds(b.ips, f) + KeptIds(b.ips, h);
  }

  /** Nothing outside the groups refers to a security group or a subnet inside. */
  ghost predicate Apart(c: Cloud, g: set<string>) {
    && (forall k :: k in c.nics && k.group !in g ==>
         c.nics[k].nsg.group !in g && c.nics[k].subnet.vnet.group !in g)
    && (forall s :: s in c.subnets && s.vnet.group !in g && c.subnets[s].nsg.Some? ==>
         c.subnets[s].nsg.value.group !in g)
  }

  lemma ApartIsAboutOutside(a: Cloud, b: Cloud, g: set<string>)
    requires Apart(a, g) && Part(a, g, false) == Part(b, g, false)
    ensures Apart(b, g)
  {
    forall k | k in b.nics && k.group !in g ensures k in a.nics && a.nics[k] == b.nics[k] {
      assert k in Part(b, g, false).nics;
    }
    forall s | s in b.subnets && s.vnet.group !in g ensures s in a.subnets && a.subnets[s] == b.subnets[s] {
      assert s in Part(b, g, false).subnets;
    }
  }

  lemma EmptyInsideIsApart(c: Cloud, g: set<string>)
    requires NoDanglingReference(c) && Part(c, g, true) == EmptyCloud
    ensures Apart(c, g)
  {
    assert forall k :: k in c.nsgs ==> (k.group in g <==> k in Part(c, g, true).nsgs);
    assert forall s :: s in c.subnets ==> (s.vnet.group in g <==> s in Part(c, g, true).subnets);
  }

  // ----- completed commands stay inside

  /** Everything that the machine names is in these groups. */
  predicate Covered(cfg: Config, g: set<string>) {
    && cfg.vm.group in g && cfg.vnet.group in g && cfg.removedVnet.group in g
    && (cfg.nsg.Some? ==> cfg.nsg.value.group in g)
  }

  /** `c'` comes from `c` by a change inside the groups, which makes `inner` of what was there. */
  predicate Local(c: Cloud, c': Cloud, inner: Cloud, g: set<string>) {
    Part(c', g, true) == inner && Part(c', g, false) == Part(c, g, false)
  }

  lemma MachineArrivalIsLocal(c: Cloud, vm: Id, n: Need, g: set<string>)
    requires vm.group in g
    ensures Local(c, WithMachine(c, vm, n), WithMachine(Part(c, g, true), vm, n), g)
  {
    var f, h := In(g, true), In(g, false);
    IdInside(c.ips, IpOf(vm), f, h);
    PutInside(c.nics, NicOf(vm), NicFor(vm, n), f, h);
    PutInside(c.vms, vm, NicOf(vm), f, h);
  }

  lemma MachineDepartureIsLocal(c: Cloud, vm: Id, g: set<string>)
    requires vm.group in g
    ensures Local(c, WithoutMachine(c, vm), WithoutMachine(Part(c, g, true), vm), g)
  {
    var f, h := In(g, true), In(g, false);
    IdInside(c.ips, IpOf(vm), f, h);
    DropInside(c.nics, NicOf(vm), f, h);
    DropInside(c.vms, vm, f, h);
  }

  lemma NetworkIsLocal(c: Cloud, n: Need, rules: Rules, location: string, g: set<string>)
    requires n.nsg.group in g && n.subnet.vnet.group in g
    ensures Local(c, WithNetwork(c, n, rules, location), WithNetwork(Part(c, g, true), n, rules, location), g)
  {
    var f, h := In(g, true), In(g, false);
    assert WrittenNsg(c, n.nsg, rules) == WrittenNsg(Part(c, g, true), n.nsg, rules);
    PutInside(c.nsgs, n.nsg, WrittenNsg(c, n.nsg, rules), f, h);
    PutInside(c.vnets, n.subnet.vnet, location, f, h);
    PutInside(c.subnets, n.subnet, Subnet(None), SubnetIn(g, true), SubnetIn(g, false));
  }

  /** What is attached inside is attached from inside. */
  lemma AttachedFromInside(c: Cloud, g: set<string>, nsg: Id, subnet: SubnetId)
    requires Apart(c, g) && nsg.group in g && subnet.vnet.group in g
    ensures NsgAttached(c, nsg) <==> NsgAttached(Part(c, g, true), nsg)
    ensures SubnetAttached(c, subnet) <==> SubnetAttached(Part(c, g, true), subnet)
    ensures VnetAttached(c, subnet.vnet) <==> VnetAttached(Part(c, g, true), subnet.vnet)
  {
    var i := Part(c, g, true);
    if NsgAttached(c, nsg) {
      if k :| k in c.nics && c.nics[k].nsg == nsg {
        assert k in i.nics;
      } else {
        var s :| s in c.subnets && c.subnets[s].nsg == Some(nsg);
        assert s in i.subnets;
      }
    }
    if SubnetAttached(c, subnet) {
      var k :| k in c.nics && c.nics[k].subnet == subnet;
      assert k in i.nics;
    }
    if VnetAttached(c, subnet.vnet) {
      var s :| s in c.subnets && s.vnet == subnet.vnet;
      assert s in i.subnets;
    }
  }

  lemma NsgRemovalIsLocal(c: Cloud, nsg: Id, usedInPool: bool, subnet: SubnetId, g: set<string>)
    requires Apart(c, g) && nsg.group in g && subnet.vnet.group in g
    ensures Local(c, WithoutNsg(c, nsg, usedInPool), WithoutNsg(Part(c, g, true), nsg, usedInPool), g)
  {
    AttachedFromInside(c, g, nsg, subnet);
    DropInside(c.nsgs, nsg, In(g, true), In(g, false));
  }

  lemma SubnetRemovalIsLocal(c: Cloud, nsg: Id, subnet: SubnetId, g: set<string>)
    requires Apart(c, g) && nsg.group in g && subnet.vnet.group in g
    ensures Local(c, WithoutSubnet(c, subnet), WithoutSubnet(Part(c, g, true), subnet), g)
  {
    AttachedFromInside(c, g, nsg, subnet);
    DropInside(c.subnets, subnet, SubnetIn(g, true), SubnetIn(g, false));
  }

  lemma VnetRemovalIsLocal(c: Cloud, nsg: Id, subnet: SubnetId, g: set<string>)
    requires Apart(c, g) && nsg.group in g && subnet.vnet.group in g
    ensures Local(c, WithoutVnet(c, subnet.vnet), WithoutVnet(Part(c, g, true), subnet.vnet), g)
  {
    AttachedFromInside(c, g, nsg, subnet);
    DropInside(c.vnets, subnet.vnet, In(g, true), In(g, false));
  }

  lemma NetworkRemovalIsLocal(c: Cloud, nsg: Id, usedInPool: bool, subnet: SubnetId, g: set<string>)
    requires Apart(c, g) && nsg.group in g && subnet.vnet.group in g
    ensures Local(c, WithoutNetwork(c, nsg, usedInPool, subnet),
                  WithoutNetwork(Part(c, g, true), nsg, usedInPool, subnet), g)
  {
    NsgRemovalIsLocal(c, nsg, usedInPool, subnet, g);
    var c1 := WithoutNsg(c, nsg, usedInPool);
    ApartIsAboutOutside(c, c1, g);
    SubnetRemovalIsLocal(c1, nsg, subnet, g);
    var c2 := WithoutSubnet(c1, subnet);
    ApartIsAboutOutside(c1, c2, g);
    VnetRemovalIsLocal(c2, nsg, subnet, g);
  }

  /** A completed Create does inside the groups what it would do to them alone. */
  lemma CreateIsLocal(c: Cloud, cfg: Config, plan: Plan, g: set<string>)
    requires Create(c, cfg, plan).outcome == Done && Covered(cfg, g)
    ensures cfg.nsg.Some?
    ensures var n := NeedOf(cfg);
            Local(c, Create(c, cfg, plan).trace.cloud,
                  WithMachine(WithNetwork(Part(c, g, true), n, cfg.rules, cfg.location), cfg.vm, n), g)
  {
    CreateEffect(c, cfg, plan);
    var n := NeedOf(cfg);
    NetworkIsLocal(c, n, cfg.rules, cfg.location, g);
    MachineArrivalIsLocal(WithNetwork(c, n, cfg.rules, cfg.location), cfg.vm, n, g);
  }

  lemma RemoveIsLocal(c: Cloud, cfg: Config, plan: Plan, g: set<string>)
    requires Remove(c, cfg, plan).outcome == Done && Covered(cfg, g) && Apart(c, g)
    ensures cfg.nsg.Some?
    ensures Local(c, Remove(c, cfg, plan).trace.cloud,
                  WithoutNetwork(WithoutMachine(Part(c, g, true), cfg.vm),
                                 cfg.nsg.value, cfg.pooled, cfg.RemovedSubnet()),
                  g)
  {
    RemoveEffect(c, cfg, plan);
    var c1 := WithoutMachine(c, cfg.vm);
    MachineDepartureIsLocal(c, cfg.vm, g);
    ApartIsAboutOutside(c, c1, g);
    NetworkRemovalIsLocal(c1, cfg.nsg.value, cfg.pooled, cfg.RemovedSubnet(), g);
  }

  // ----- completed runs

  datatype Op = Add(cfg: Config, plan: Plan) | Drop(vm: Id, plan: Plan)

  function NeedsOf(machines: map<Id, Config>): Needs {
    map m | m in machines && machines[m].nsg.Some? :: NeedOf(machines[m])
  }

  /** The cloud and the machines that it is meant to hold. */
  datatype World = World(cloud: Cloud, machines: map<Id, Config>) {
    /** Create is only reached for a VM that PreCreateCheck did not find. */
    predicate Completes(op: Op) {
      match op
      case Add(cfg, plan) =>
        && cfg.vm !in cloud.vms && cfg.vnet == cfg.removedVnet
        && Create(cloud, cfg, plan).outcome == Done
      case Drop(vm, plan) =>
        vm in machines && Remove(cloud, machines[vm], plan).outcome == Done
    }

    function Next(op: Op): World
      requires Completes(op)
    {
      match op
      case Add(cfg, plan) => World(Create(cloud, cfg, plan).trace.cloud, machines[cfg.vm := cfg])
      case Drop(vm, plan) => World(Remove(cloud, machines[vm], plan).trace.cloud, machines - {vm})
    }

    /** In the groups there is exactly what the machines need. */
    ghost predicate Tidy(g: set<string>) {
      KnowsMachines(machines, g) && Exactly(Part(cloud, g, true), NeedsOf(machines))
    }
  }

  predicate KnowsMachines(machines: map<Id, Config>, g: set<string>) {
    forall m :: m in machines ==>
      && machines[m].vm == m && machines[m].nsg.Some? && machines[m].vnet == machines[m].removedVnet
      && Covered(machines[m], g)
  }

  predicate AllComplete(w: World, ops: seq<Op>)
    decreases |ops|
  {
    ops == [] || (w.Completes(ops[0]) && AllComplete(w.Next(ops[0]), ops[1..]))
  }

  function Finish(w: World, ops: seq<Op>): World
    requires AllComplete(w, ops)
    decreases |ops|
  {
    if ops == [] then w else Finish(w.Next(ops[0]), ops[1..])
  }

  lemma NeedsGrow(ms: map<Id, Config>, cfg: Config)
    requires cfg.nsg.Some?
    ensures NeedsOf(ms[cfg.vm := cfg]) == NeedsOf(ms)[cfg.vm := NeedOf(cfg)]
  {
  }

  lemma AddStaysTidy(w: World, cfg: Config, plan: Plan, g: set<string>)
    requires w.Tidy(g) && w.Completes(Add(cfg, plan)) && Covered(cfg, g)
    ensures w.Next(Add(cfg, plan)).Tidy(g)
    ensures Part(w.Next(Add(cfg, plan)).cloud, g, false) == Part(w.cloud, g, false)
  {
    CreateIsLocal(w.cloud, cfg, plan, g);
    NewMachineIsKnown(w.machines, cfg, g);
    NeedsGrow(w.machines, cfg);
    NewMachineArrives(Part(w.cloud, g, true), NeedsOf(w.machines), cfg);
  }

  lemma NewMachineIsKnown(ms: map<Id, Config>, cfg: Config, g: set<string>)
    requires KnowsMachines(ms, g) && cfg.nsg.Some? && cfg.vnet == cfg.removedVnet && Covered(cfg, g)
    ensures KnowsMachines(ms[cfg.vm := cfg], g)
  {
  }

  lemma NewMachineArrives(c: Cloud, ns: Needs, cfg: Config)
    requires Exactly(c, ns) && cfg.vm !in c.vms && cfg.nsg.Some?
    ensures var n := NeedOf(cfg);
            Exactly(WithMachine(WithNetwork(c, n, cfg.rules, cfg.location), cfg.vm, n), ns[cfg.vm := n])
  {
    ArrivalStaysExact(c, ns, cfg.vm, NeedOf(cfg), cfg.rules, cfg.location);
  }

  lemma NeedsShrink(ms: map<Id, Config>, vm: Id)
    requires vm in ms && ms[vm].nsg.Some?
    ensures vm !in NeedsOf(ms - {vm}) && NeedsOf(ms) == NeedsOf(ms - {vm})[vm := NeedOf(ms[vm])]
  {
  }

  lemma DropStaysTidy(w: World, vm: Id, plan: Plan, g: set<string>)
    requires w.Tidy(g) && w.Completes(Drop(vm, plan)) && Apart(w.cloud, g)
    ensures w.Next(Drop(vm, plan)).Tidy(g)
    ensures Part(w.Next(Drop(vm, plan)).cloud, g, false) == Part(w.cloud, g, false)
  {
    var cfg := w.machines[vm];
    RemoveIsLocal(w.cloud, cfg, plan, g);
    NeedsShrink(w.machines, vm);
    var ns := NeedsOf(w.machines - {vm});
    DepartureStaysExact(Part(w.cloud, g, true), ns, vm, NeedOf(cfg), cfg.pooled, cfg.RemovedSubnet());
  }

  /** Every machine that is added names only these groups. */
  predicate AllCovered(ops: seq<Op>, g: set<string>) {
    forall i :: 0 <= i < |ops| && ops[i].Add? ==> Covered(ops[i].cfg, g)
  }

  lemma {:induction false} OpsStayTidy(w: World, ops: seq<Op>, g: set<string>)
    requires w.Tidy(g) && Apart(w.cloud, g) && AllComplete(w, ops) && AllCovered(ops, g)
    ensures Finish(w, ops).Tidy(g) && Part(Finish(w, ops).cloud, g, false) == Part(w.cloud, g, false)
    decreases |ops|
  {
    if ops != [] {
      match ops[0] {
        case Add(cfg, plan) => AddStaysTidy(w, cfg, plan, g);
        case Drop(vm, plan) => DropStaysTidy(w, vm, plan, g);
      }
      ApartIsAboutOutside(w.cloud, w.Next(ops[0]).cloud, g);
      OpsStayTidy(w.Next(ops[0]), ops[1..], g);
    }
  }

  /** After any run of completed commands, in resource groups that were empty before, these groups
      hold what the remaining machines need and nothing else, and all else is as it was; once
      every machine is removed the whole cloud is as it was. */
  lemma CompletedRunIsTidy(c: Cloud, g: set<string>, ops: seq<Op>)
    requires NoDanglingReference(c) && Part(c, g, true) == EmptyCloud
    requires AllComplete(World(c, map[]), ops) && AllCovered(ops, g)
    ensures var w := Finish(World(c, map[]), ops);
            && w.Tidy(g) && Part(w.cloud, g, false) == Part(c, g, false)
            && (w.machines == map[] ==> w.cloud == c)
  {
    var start := World(c, map[]);
    EmptyInsideIsApart(c, g);
    assert NeedsOf(map[]) == map[];
    NothingNeedsNothing(EmptyCloud);
    OpsStayTidy(start, ops, g);
    var w := Finish(start, ops);
    if w.machines == map[] {
      NothingNeedsNothing(Part(w.cloud, g, true));
      PartsMakeTheCloud(w.cloud, c, g);
    }
  }
}
