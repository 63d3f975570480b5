/** The discipline that the driver's control flow imposes on changes to the cloud, and what
    follows from it in every state of every run: no dangling reference, other machines left
    alone, and the user's own security groups untouched. */
module AzureSafety {
  import opened AzureCloud
  import opened AzureDriver
  import opened Wrappers

  /** `after` is `before`, or differs in its rules and `before` is managed by the driver. */
  predicate SameButRules(before: Nsg, after: Nsg) {
    after == before || (before.managed == Some("true") && after.managed == before.managed)
  }

  predicate Deletes(e: Change) {
    e.VmGone? || e.NicGone? || e.IpGone? || e.NsgGone? || e.SubnetGone? || e.VnetGone?
  }

  /** When a job may make change `e` to cloud `c`. */
  ghost predicate Allowed(c: Cloud, job: Job, e: Change) {
    Deletes(e) == job.removing && Justified(c, job.cfg, e)
  }

  /** When change `e`, made for the sake of machine `cfg`, hurts no one. */
  ghost predicate Justified(c: Cloud, cfg: Config, e: Change) {
    var vm := cfg.vm;
    match e
    case NsgWritten(id, nsg) => id in c.nsgs ==> SameButRules(c.nsgs[id], nsg)
    case VnetMade(id, _) => id !in c.vnets
    case SubnetMade(id) => id !in c.subnets && id.vnet in c.vnets
    case IpMade => true
    case NicMade(nic) =>
      && nic.nsg in c.nsgs && nic.subnet in c.subnets
      && (nic.ip == None || (nic.ip == Some(IpOf(vm)) && IpOf(vm) in c.ips))
    case VmMade(nic) => nic == NicOf(vm) && nic in c.nics
    case VmGone => true
    case NicGone => vm !in c.vms
    case IpGone => NicOf(vm) !in c.nics
    case NsgGone(id) => cfg.nsg == Some(id) && NsgDeletable(c, id, cfg.pooled)
    case SubnetGone(id) => !SubnetAttached(c, id)
    case VnetGone(id) => !VnetAttached(c, id)
  }

  /** The cloud after the first changes of a run. */
  function Replay(c: Cloud, vm: Id, log: seq<Change>): Cloud {
    if log == [] then c else Apply(Replay(c, vm, log[..|log| - 1]), vm, log[|log| - 1])
  }

  /** Each change was allowed in the state it was made in. */
  ghost predicate Disciplined(c: Cloud, job: Job, log: seq<Change>) {
    log == [] ||
    (var before := log[..|log| - 1];
     Disciplined(c, job, before) && Allowed(Replay(c, job.cfg.vm, before), job, log[|log| - 1]))
  }

  ghost predicate Valid(t: Trace) {
    Disciplined(t.start, t.job, t.log) && t.cloud == Replay(t.start, t.cfg.vm, t.log)
  }

  lemma DoIsValid(t: Trace, e: Change)
    requires Valid(t) && Allowed(t.cloud, t.job, e)
    ensures Valid(t.Do(e))
  {
    assert (t.log + [e])[..|t.log + [e]| - 1] == t.log;
  }

  /** A run that continues `t`. */
  ghost predicate Continues(t: Trace, r: Reply) {
    Valid(r.trace) && r.trace.job == t.job && r.trace.start == t.start
  }

  lemma NsgStep(t: Trace, id: Id, plan: Plan)
    requires Valid(t) && !t.job.removing
    ensures var r := EnsureNsg(t, id, plan);
            Continues(t, r) && (r.outcome == Done ==> id in r.trace.cloud.nsgs)
  {
    var e := NsgWritten(id, WrittenNsg(t.cloud, id, t.cfg.rules));
    DoIsValid(t, e);
  }

  lemma VnetStep(t: Trace, plan: Plan)
    requires Valid(t) && !t.job.removing
    ensures var r := EnsureVnet(t, plan);
            && Continues(t, r) && r.trace.cloud.nsgs == t.cloud.nsgs
            && (r.outcome == Done ==> t.cfg.vnet in r.trace.cloud.vnets)
  {
    if t.cfg.vnet !in t.cloud.vnets { DoIsValid(t, VnetMade(t.cfg.vnet, t.cfg.location)); }
  }

  lemma SubnetStep(t: Trace, plan: Plan)
    requires Valid(t) && !t.job.removing && t.cfg.vnet in t.cloud.vnets
    ensures var r := EnsureSubnet(t, plan);
            && Continues(t, r) && r.trace.cloud.nsgs == t.cloud.nsgs
            && (r.outcome == Done ==> t.cfg.SubnetRef() in r.trace.cloud.subnets)
  {
    if t.cfg.SubnetRef() !in t.cloud.subnets { DoIsValid(t, SubnetMade(t.cfg.SubnetRef())); }
  }

  lemma NetworkStep(t: Trace, nsg: Id, plan: Plan)
    requires Valid(t) && !t.job.removing
    ensures var r := EnsureNetwork(t, nsg, plan);
            && Continues(t, r)
            && (r.outcome == Done ==> nsg in r.trace.cloud.nsgs && t.cfg.SubnetRef() in r.trace.cloud.subnets)
  {
    var r := EnsureNetwork(t, nsg, plan);
    if plan(GroupEnsure) != Works || plan(AvailabilitySet) != Works {
      assert r == Reply(t, Failed);
      return;
    }
    NsgStep(t, nsg, plan);
    var r1 := EnsureNsg(t, nsg, plan);
    if r1.outcome != Done {
      assert r == r1;
      return;
    }
    VnetStep(r1.trace, plan);
    var r2 := EnsureVnet(r1.trace, plan);
    if r2.outcome != Done {
      assert r == r2;
      return;
    }
    SubnetStep(r2.trace, plan);
    assert r == EnsureSubnet(r2.trace, plan);
  }

  lemma IpStep(t: Trace, plan: Plan)
    requires Valid(t) && !t.job.removing
    ensures var r := EnsureIp(t, plan);
            && Continues(t, r) && r.trace.cloud.nsgs == t.cloud.nsgs && r.trace.cloud.subnets == t.cloud.subnets
            && (r.outcome == Done ==> t.cfg.noPublicIP || IpOf(t.cfg.vm) in r.trace.cloud.ips)
  {
    DoIsValid(t, IpMade);
  }

  lemma NicStep(t: Trace, nsg: Id, plan: Plan)
    requires Valid(t) && !t.job.removing && nsg in t.cloud.nsgs && t.cfg.SubnetRef() in t.cloud.subnets
    requires t.cfg.noPublicIP || IpOf(t.cfg.vm) in t.cloud.ips
    ensures var r := EnsureNic(t, nsg, plan);
            Continues(t, r) && (r.outcome == Done ==> NicOf(t.cfg.vm) in r.trace.cloud.nics)
  {
    DoIsValid(t, NicMade(t.cfg.NicSpec(nsg)));
  }

  lemma VmStep(t: Trace, plan: Plan)
    requires Valid(t) && !t.job.removing && NicOf(t.cfg.vm) in t.cloud.nics
    ensures Continues(t, PutVm(t, plan))
  {
    DoIsValid(t, VmMade(NicOf(t.cfg.vm)));
  }

  lemma MachineStep(t: Trace, nsg: Id, plan: Plan)
    requires Valid(t) && !t.job.removing && nsg in t.cloud.nsgs && t.cfg.SubnetRef() in t.cloud.subnets
    ensures Continues(t, PutMachine(t, nsg, plan))
  {
    var r := PutMachine(t, nsg, plan);
    IpStep(t, plan);
    var r1 := EnsureIp(t, plan);
    if r1.outcome != Done {
      assert r == r1;
      return;
    }
    NicStep(r1.trace, nsg, plan);
    var r2 := EnsureNic(r1.trace, nsg, plan);
    if r2.outcome != Done {
      assert r == r2;
      return;
    }
    VmStep(r2.trace, plan);
    assert r == PutVm(r2.trace, plan);
  }

  lemma CreateIsDisciplined(c: Cloud, cfg: Config, plan: Plan)
    ensures Continues(Begin(Job(false, cfg), c), Create(c, cfg, plan))
  {
    var t := Begin(Job(false, cfg), c);
    if cfg.nsg.Some? {
      var nsg := cfg.nsg.value;
      NetworkStep(t, nsg, plan);
      var r := EnsureNetwork(t, nsg, plan);
      if r.outcome == Done { MachineStep(r.trace, nsg, plan); }
    }
  }

  lemma VmRemovalStep(t: Trace, plan: Plan)
    requires Valid(t) && t.job.removing
    ensures var r := RemoveVm(t, plan);
            Continues(t, r) && (r.outcome == Done ==> t.cfg.vm !in r.trace.cloud.vms)
  {
    DoIsValid(t, VmGone);
  }

  lemma NicRemovalStep(t: Trace, plan: Plan)
    requires Valid(t) && t.job.removing && t.cfg.vm !in t.cloud.vms
    ensures var r := RemoveNic(t, plan);
            Continues(t, r) && (r.outcome == Done ==> NicOf(t.cfg.vm) !in r.trace.cloud.nics)
  {
    DoIsValid(t, NicGone);
  }

  lemma IpRemovalStep(t: Trace, plan: Plan)
    requires Valid(t) && t.job.removing && NicOf(t.cfg.vm) !in t.cloud.nics
    ensures Continues(t, RemoveIp(t, plan))
  {
    DoIsValid(t, IpGone);
  }

  /** The interface goes only after its VM and the address only after its interface. */
  lemma MachineRemovalStep(t: Trace, plan: Plan)
    requires Valid(t) && t.job.removing
    ensures Continues(t, RemoveMachine(t, plan))
  {
    var r := RemoveMachine(t, plan);
    VmRemovalStep(t, plan);
    var r1 := RemoveVm(t, plan);
    if r1.outcome != Done {
      assert r == r1;
      return;
    }
    NicRemovalStep(r1.trace, plan);
    var r2 := RemoveNic(r1.trace, plan);
    if r2.outcome != Done {
      assert r == r2;
      return;
    }
    IpRemovalStep(r2.trace, plan);
    assert r == RemoveIp(r2.trace, plan);
  }

  lemma NsgRemovalStep(t: Trace, nsg: Id, plan: Plan)
    requires Valid(t) && t.job.removing && t.cfg.nsg == Some(nsg)
    ensures Continues(t, RemoveNsg(t, nsg, plan))
  {
    if NsgDeletable(t.cloud, nsg, t.cfg.pooled) { DoIsValid(t, NsgGone(nsg)); }
  }

  lemma SubnetRemovalStep(t: Trace, plan: Plan)
    requires Valid(t) && t.job.removing
    ensures Continues(t, RemoveSubnet(t, plan))
  {
    var id := t.cfg.RemovedSubnet();
    if !SubnetAttached(t.cloud, id) { DoIsValid(t, SubnetGone(id)); }
  }

  lemma VnetRemovalStep(t: Trace, plan: Plan)
    requires Valid(t) && t.job.removing
    ensures Continues(t, RemoveVnet(t, plan))
  {
    var id := t.cfg.removedVnet;
    if !VnetAttached(t.cloud, id) { DoIsValid(t, VnetGone(id)); }
  }

  lemma NetworkRemovalStep(t: Trace, nsg: Id, plan: Plan)
    requires Valid(t) && t.job.removing && t.cfg.nsg == Some(nsg)
    ensures Continues(t, RemoveNetwork(t, nsg, plan))
  {
    var r := RemoveNetwork(t, nsg, plan);
    NsgRemovalStep(t, nsg, plan);
    var r1 := RemoveNsg(t, nsg, plan);
    if r1.outcome != Done {
      assert r == r1;
      return;
    }
    var keep := KeepAvailabilitySet(r1.trace, plan);
    if keep.outcome != Done {
      assert r == keep;
      return;
    }
    SubnetRemovalStep(r1.trace, plan);
    var r2 := RemoveSubnet(r1.trace, plan);
    if r2.outcome != Done {
      assert r == r2;
      return;
    }
    VnetRemovalStep(r2.trace, plan);
    assert r == RemoveVnet(r2.trace, plan);
  }

  lemma RemoveIsDisciplined(c: Cloud, cfg: Config, plan: Plan)
    ensures Continues(Begin(Job(true, cfg), c), Remove(c, cfg, plan))
  {
    var t := Begin(Job(true, cfg), c);
    var r := Remove(c, cfg, plan);
    if cfg.vm.group == "" || plan(Setup) != Works || cfg.nsg.None? {
      assert r == Reply(t, Failed);
      return;
    }
    MachineRemovalStep(t, plan);
    var r1 := RemoveMachine(t, plan);
    if r1.outcome != Done {
      assert r == r1;
      return;
    }
    NetworkRemovalStep(r1.trace, cfg.nsg.value, plan);
    assert r == RemoveNetwork(r1.trace, cfg.nsg.value, plan);
  }

  // ----- runs

  /** A job and what goes wrong on its way. */
  datatype Command = Command(job: Job, plan: Plan)

  function Execute(c: Cloud, cmd: Command): Reply {
    if cmd.job.removing then Remove(c, cmd.job.cfg, cmd.plan) else Create(c, cmd.job.cfg, cmd.plan)
  }

  /** The cloud after the commands of any number of machines, one command after another. */
  function Run(c: Cloud, cmds: seq<Command>): Cloud
    decreases |cmds|
  {
    if cmds == [] then c else Run(Execute(c, cmds[0]).trace.cloud, cmds[1..])
  }

  /** Both commands make allowed changes only, and end in the state their log leads to. */
  lemma ExecuteIsDisciplined(c: Cloud, cmd: Command)
    ensures var t := Execute(c, cmd).trace;
            Valid(t) && t.start == c && t.job == cmd.job
  {
    if cmd.job.removing {
      RemoveIsDisciplined(c, cmd.job.cfg, cmd.plan);
    } else {
      CreateIsDisciplined(c, cmd.job.cfg, cmd.plan);
    }
  }

  // ----- no dangling reference

  lemma ChangeLeavesNothingDangling(c: Cloud, cfg: Config, e: Change)
    requires Integrity(c) && Justified(c, cfg, e)
    ensures NoDanglingReference(Apply(c, cfg.vm, e))
  {
  }

  lemma ChangeRespectsNames(c: Cloud, cfg: Config, e: Change)
    requires NamesRespected(c) && Justified(c, cfg, e)
    ensures NamesRespected(Apply(c, cfg.vm, e))
  {
    forall m: Id
      ensures NicOf(cfg.vm) == NicOf(m) ==> cfg.vm == m
      ensures IpOf(cfg.vm) == IpOf(m) ==> cfg.vm == m
    {
      NamesAreInjective(m, cfg.vm);
    }
  }

  lemma ChangeKeepsIntegrity(c: Cloud, cfg: Config, e: Change)
    requires Integrity(c) && Justified(c, cfg, e)
    ensures Integrity(Apply(c, cfg.vm, e))
  {
    ChangeLeavesNothingDangling(c, cfg, e);
    ChangeRespectsNames(c, cfg, e);
  }

  lemma {:induction false} LogKeepsIntegrity(c: Cloud, job: Job, log: seq<Change>)
    requires Integrity(c) && Disciplined(c, job, log)
    ensures Integrity(Replay(c, job.cfg.vm, log))
  {
    if log != [] {
      var before := log[..|log| - 1];
      LogKeepsIntegrity(c, job, before);
      ChangeKeepsIntegrity(Replay(c, job.cfg.vm, before), job.cfg, log[|log| - 1]);
    }
  }

  lemma {:induction false} PrefixIsDisciplined(c: Cloud, job: Job, log: seq<Change>, i: nat)
    requires Disciplined(c, job, log) && i <= |log|
    ensures Disciplined(c, job, log[..i])
  {
    if i == |log| {
      assert log[..i] == log;
    } else {
      PrefixIsDisciplined(c, job, log[..|log| - 1], i);
      assert log[..|log| - 1][..i] == log[..i];
    }
  }

  /** In every state that a command passes through, whatever fails and wherever it stops,
      every VM's interface exists, as do every interface's security group, subnet and
      address, and every subnet's network. */
  lemma EveryStateIsSound(c: Cloud, cmd: Command, i: nat)
    requires Integrity(c) && i <= |Execute(c, cmd).trace.log|
    ensures Integrity(Replay(c, cmd.job.cfg.vm, Execute(c, cmd).trace.log[..i]))
  {
    ExecuteIsDisciplined(c, cmd);
    var log := Execute(c, cmd).trace.log;
    PrefixIsDisciplined(c, cmd.job, log, i);
    LogKeepsIntegrity(c, cmd.job, log[..i]);
  }

  lemma {:induction false} RunKeepsIntegrity(c: Cloud, cmds: seq<Command>)
    requires Integrity(c)
    ensures Integrity(Run(c, cmds))
    decreases |cmds|
  {
    if cmds != [] {
      ExecuteIsDisciplined(c, cmds[0]);
      LogKeepsIntegrity(c, cmds[0].job, Execute(c, cmds[0]).trace.log);
      RunKeepsIntegrity(Execute(c, cmds[0]).trace.cloud, cmds[1..]);
    }
  }

  // ----- one machine's commands leave the others alone

  /** VM `v` and everything it stands on are the same in `c'` as in `c`, except that a
      security group that the driver manages may have new rules. */
  ghost predicate SameStanding(c: Cloud, c': Cloud, v: Id)
    requires NoDanglingReference(c) && v in c.vms
  {
    var nic := c.vms[v];
    var spec := c.nics[nic];
    && v in c'.vms && c'.vms[v] == nic
    && nic in c'.nics && c'.nics[nic] == spec
    && (spec.ip.Some? ==> spec.ip.value in c'.ips)
    && spec.subnet in c'.subnets && c'.subnets[spec.subnet] == c.subnets[spec.subnet]
    && spec.subnet.vnet in c'.vnets && c'.vnets[spec.subnet.vnet] == c.vnets[spec.subnet.vnet]
    && spec.nsg in c'.nsgs && SameButRules(c.nsgs[spec.nsg], c'.nsgs[spec.nsg])
  }

  lemma ChangeSparesOthers(c: Cloud, cfg: Config, e: Change, v: Id)
    requires Integrity(c) && Justified(c, cfg, e)
    requires v in c.vms && v != cfg.vm
    ensures SameStanding(c, Apply(c, cfg.vm, e), v)
  {
    assert c.vms[v] != NicOf(cfg.vm);
    assert c.nics[c.vms[v]].ip != Some(IpOf(cfg.vm));
  }

  lemma StandingComposes(c: Cloud, c1: Cloud, c2: Cloud, v: Id)
    requires NoDanglingReference(c) && NoDanglingReference(c1) && v in c.vms
    requires SameStanding(c, c1, v) && SameStanding(c1, c2, v)
    ensures SameStanding(c, c2, v)
  {
  }

  lemma {:induction false} LogSparesOthers(c: Cloud, job: Job, log: seq<Change>, v: Id)
    requires Integrity(c) && Disciplined(c, job, log)
    requires v in c.vms && v != job.cfg.vm
    ensures SameStanding(c, Replay(c, job.cfg.vm, log), v)
  {
    if log != [] {
      var before := log[..|log| - 1];
      var c1 := Replay(c, job.cfg.vm, before);
      LogSparesOthers(c, job, before, v);
      LogKeepsIntegrity(c, job, before);
      ChangeSparesOthers(c1, job.cfg, log[|log| - 1], v);
      StandingComposes(c, c1, Replay(c, job.cfg.vm, log), v);
    }
  }

  /** No run of other machines' commands touches a VM or anything it stands on. */
  lemma {:induction false} RunSparesOthers(c: Cloud, cmds: seq<Command>, v: Id)
    requires Integrity(c) && v in c.vms
    requires forall i :: 0 <= i < |cmds| ==> cmds[i].job.cfg.vm != v
    ensures SameStanding(c, Run(c, cmds), v)
    decreases |cmds|
  {
    if cmds != [] {
      var t := Execute(c, cmds[0]).trace;
      ExecuteIsDisciplined(c, cmds[0]);
      LogSparesOthers(c, t.job, t.log, v);
      LogKeepsIntegrity(c, t.job, t.log);
      RunSparesOthers(t.cloud, cmds[1..], v);
      StandingComposes(c, t.cloud, Run(c, cmds), v);
    }
  }

  // ----- security groups of the user's own

  /** Security group `x` exists and does not carry the rancher-managed tag. */
  predicate UserOwned(c: Cloud, x: Id) { x in c.nsgs && c.nsgs[x].managed.None? }

  /** The machine has no security group configured, and the one it falls back to is `x`. */
  predicate FallsBackTo(cfg: Config, x: Id) { !cfg.pooled && cfg.nsg == Some(x) }

  lemma ChangeKeepsUserNsg(c: Cloud, job: Job, e: Change, x: Id)
    requires Allowed(c, job, e) && UserOwned(c, x)
    requires !(job.removing && FallsBackTo(job.cfg, x))
    ensures var c' := Apply(c, job.cfg.vm, e);
            UserOwned(c', x) && c'.nsgs[x] == c.nsgs[x]
  {
  }

  lemma {:induction false} LogKeepsUserNsg(c: Cloud, job: Job, log: seq<Change>, x: Id)
    requires Disciplined(c, job, log) && UserOwned(c, x)
    requires !(job.removing && FallsBackTo(job.cfg, x))
    ensures var c' := Replay(c, job.cfg.vm, log);
            UserOwned(c', x) && c'.nsgs[x] == c.nsgs[x]
  {
    if log != [] {
      var before := log[..|log| - 1];
      LogKeepsUserNsg(c, job, before, x);
      ChangeKeepsUserNsg(Replay(c, job.cfg.vm, before), job, log[|log| - 1], x);
    }
  }

  /** A security group without the tag is neither changed nor deleted by any run of machines
      that name it; only a removal that falls back to the very same name can delete it. */
  lemma {:induction false} RunKeepsUserNsg(c: Cloud, cmds: seq<Command>, x: Id)
    requires UserOwned(c, x)
    requires forall i :: 0 <= i < |cmds| ==> !(cmds[i].job.removing && FallsBackTo(cmds[i].job.cfg, x))
    ensures UserOwned(Run(c, cmds), x)
    ensures Run(c, cmds).nsgs[x] == c.nsgs[x]
    decreases |cmds|
  {
    if cmds != [] {
      var t := Execute(c, cmds[0]).trace;
      ExecuteIsDisciplined(c, cmds[0]);
      LogKeepsUserNsg(c, t.job, t.log, x);
      RunKeepsUserNsg(t.cloud, cmds[1..], x);
    }
  }
}
