/** Running one action on several machines: load them all, act on all of them concurrently,
    save them all, and stop at the first of these stages that fails. */
module Actions {
  import opened FanIn
  import opened Permutations
  import opened Wrappers

  type Error = string
  datatype Host = Host(name: string, config: string)
  datatype Loaded = Ok(host: Host) | Err(error: Error)

  // ----- loading

  function Hosts(names: seq<string>, load: string -> Loaded): seq<Host> {
    if names == [] then []
    else
      var n := |names| - 1;
      Hosts(names[..n], load) + match load(names[n]) case Ok(h) => [h] case Err(_) => []
  }

  ghost predicate AllLoad(names: seq<string>, load: string -> Loaded) {
    forall i :: 0 <= i < |names| ==> load(names[i]).Ok?
  }

  /** LoadHosts: the hosts that load, in order, and an error for each name that does not. */
  method LoadHosts(names: seq<string>, load: string -> Loaded) returns (hosts: seq<Host>, errors: map<string, Error>)
    ensures hosts == Hosts(names, load)
    ensures forall k :: k in errors <==> k in names && load(k).Err?
    ensures forall k :: k in errors ==> errors[k] == load(k).error
  {
    hosts, errors := [], map[];
    for i := 0 to |names|
      invariant hosts == Hosts(names[..i], load)
      invariant forall k :: k in errors <==> k in names[..i] && load(k).Err?
      invariant forall k :: k in errors ==> errors[k] == load(k).error
    {
      assert names[..i + 1][..i] == names[..i];
      match load(names[i])
      case Ok(h) => hosts := hosts + [h];
      case Err(e) => errors := errors[names[i] := e];
    }
    assert names[..|names|] == names;
  }

  lemma {:induction false} AllLoadedAreKept(names: seq<string>, load: string -> Loaded)
    ensures |Hosts(names, load)| <= |names|
    ensures AllLoad(names, load) ==> |Hosts(names, load)| == |names|
    ensures AllLoad(names, load) ==> forall i :: 0 <= i < |names| ==> Hosts(names, load)[i] == load(names[i]).host
  {
    if names != [] {
      var n := |names| - 1;
      AllLoadedAreKept(names[..n], load);
      if AllLoad(names, load) {
        assert AllLoad(names[..n], load) by { assert forall i :: 0 <= i < n ==> names[..n][i] == names[i]; }
      }
    }
  }

  /** What is loaded of each name, in order, whatever becomes of the others. */
  lemma {:induction false} HostsOfBoth(a: seq<string>, b: seq<string>, load: string -> Loaded)
    ensures Hosts(a + b, load) == Hosts(a, load) + Hosts(b, load)
    decreases |b|
  {
    if b == [] {
      assert a + b == a;
    } else {
      var n := |b| - 1;
      assert (a + b)[..|a + b| - 1] == a + b[..n];
      HostsOfBoth(a, b[..n], load);
    }
  }

  lemma HostOfOne(name: string, load: string -> Loaded)
    ensures Hosts([name], load) == match load(name) case Ok(h) => [h] case Err(_) => []
  {
    assert [name][..0] == [];
  }

  // ----- acting

  /** The errors among the values received, in order of arrival. */
  function Errors(received: seq<Option<Error>>): seq<Error> {
    if received == [] then []
    else
      var n := |received| - 1;
      Errors(received[..n]) + if received[n].Some? then [received[n].value] else []
  }

  /** The collector of runActionForeachMachine, given what it receives. */
  method CollectErrors(received: seq<Option<Error>>) returns (errs: seq<Error>)
    ensures errs == Errors(received)
  {
    errs := [];
    for i := 0 to |received|
      invariant errs == Errors(received[..i])
    {
      assert received[..i + 1][..i] == received[..i];
      if received[i].Some? { errs := errs + [received[i].value]; }
    }
    assert received[..|received|] == received;
  }

  lemma {:induction false} ErrorsCounted(received: seq<Option<Error>>, e: Error)
    ensures multiset(Errors(received))[e] == multiset(received)[Some(e)]
  {
    if received != [] {
      var n := |received| - 1;
      ErrorsCounted(received[..n], e);
      assert received == received[..n] + [received[n]];
      assert multiset(received)[Some(e)] == multiset(received[..n])[Some(e)] + if received[n] == Some(e) then 1 else 0;
    }
  }

  /** Errors are kept in the order they arrive in. */
  lemma {:induction false} ErrorsOfBoth(a: seq<Option<Error>>, b: seq<Option<Error>>)
    ensures Errors(a + b) == Errors(a) + Errors(b)
    decreases |b|
  {
    if b == [] {
      assert a + b == a;
    } else {
      var n := |b| - 1;
      assert (a + b)[..|a + b| - 1] == a + b[..n];
      ErrorsOfBoth(a, b[..n]);
    }
  }

  lemma ErrorOfOne(r: Option<Error>)
    ensures Errors([r]) == if r.Some? then [r.value] else []
  {
    assert [r][..0] == [];
  }

  /** In every interleaving, the action has run once on each machine, and the errors returned
      are exactly the machines' non-nil errors, whatever the order they arrive in. */
  lemma EveryMachineActsOnce(n: nat, steps: seq<Step<Option<Error>>>)
    requires Completes(n, steps)
    ensures var t := Outcome(Init<Option<Error>>(n), steps);
            && (forall i: nat :: i in t.ran <==> i < n)
            && Distinct(t.ran)
            && |t.workers| == n && (forall i :: 0 <= i < n ==> t.workers[i].Sent?)
            && multiset(Errors(t.received)) == multiset(Errors(Values(t.workers)))
  {
    InitHolds<Option<Error>>(n);
    RunsCollectOnce(Init(n), steps);
    var t := Outcome(Init<Option<Error>>(n), steps);
    forall e: Error ensures multiset(Errors(t.received))[e] == multiset(Errors(Values(t.workers)))[e] {
      ErrorsCounted(t.received, e);
      ErrorsCounted(Values(t.workers), e);
    }
  }

  lemma {:induction false} NoErrors(received: seq<Option<Error>>)
    ensures Errors(received) == [] <==> forall i :: 0 <= i < |received| ==> received[i].None?
  {
    if received != [] {
      var n := |received| - 1;
      NoErrors(received[..n]);
      assert forall i :: 0 <= i < n ==> received[..n][i] == received[i];
    }
  }

  // ----- the command

  /** Whether the store can tell if the default machine exists, and if so whether it does. */
  datatype Existence = Known(there: bool) | Unknown(error: Error)

  /** The names to act on: the arguments, or the default machine if it exists. */
  function Targets(args: seq<string>, existence: Existence): Option<seq<string>> {
    if args != [] then Some(args)
    else if existence == Known(true) then Some(["default"])
    else None
  }

  /** All arguments are targets; without any, the default machine is, if it is known to exist. */
  lemma TargetsExactly(args: seq<string>, existence: Existence)
    ensures Targets(args, existence).None? <==> args == [] && (existence.Known? ==> !existence.there)
    ensures Targets(args, existence).Some? ==>
              Targets(args, existence).value == if |args| > 0 then args else ["default"]
  {
  }

  /** The index of the first host whose save fails, or the number of hosts. */
  function FirstFailure(hosts: seq<Host>, save: Host -> bool): (k: nat)
    ensures k <= |hosts| && (forall i :: 0 <= i < k ==> save(hosts[i]))
    ensures k < |hosts| ==> !save(hosts[k])
  {
    if hosts == [] || !save(hosts[0]) then 0 else 1 + FirstFailure(hosts[1..], save)
  }

  /** The hosts that the goroutines have acted on, in order. */
  function Acted(hosts: seq<Host>, ran: seq<nat>): seq<Host> {
    Image((i: nat) => if i < |hosts| then hosts[i] else Host("", ""), ran)
  }

  /** Goroutines that have each run once have acted once on each host. */
  lemma ActedOnEachHost(hosts: seq<Host>, ran: seq<nat>)
    requires Distinct(ran) && forall i: nat :: i in ran <==> i < |hosts|
    ensures multiset(Acted(hosts, ran)) == multiset(hosts)
  {
    var all: seq<nat> := seq(|hosts|, i requires 0 <= i < |hosts| => i);
    forall i: nat ensures i in all <==> i < |hosts| { if i < |hosts| { assert all[i] == i; } }
    DistinctWithSameElements(ran, all);
    ImageOfPermutation((i: nat) => if i < |hosts| then hosts[i] else Host("", ""), ran, all);
    assert Acted(hosts, all) == hosts;
  }

  /** Every goroutine has sent its result, and none of them is an error. */
  predicate AllSucceeded(t: State<Option<Error>>) {
    forall i :: 0 <= i < |t.workers| ==> t.workers[i] == Sent(None)
  }

  class Client {
    ghost var acted: seq<Host>
    var saved: seq<Host>

    /** runAction.  `steps` is the interleaving that the goroutines follow if they are started,
        and `save` tells which saves succeed. */
    method RunAction(args: seq<string>, existence: Existence, load: string -> Loaded,
                     steps: seq<Step<Option<Error>>>, save: Host -> bool) returns (ok: bool)
      requires Targets(args, existence).Some? ==>
                 Completes(|Hosts(Targets(args, existence).value, load)|, steps)
      modifies this
      // nothing runs unless there is a target and every target loads
      ensures Targets(args, existence).None? || !AllLoad(Targets(args, existence).value, load) ==>
                !ok && acted == old(acted) && saved == old(saved)
      // otherwise every machine acts once; if one fails nothing is saved, else all are saved
      // in order up to the first failure
      ensures Targets(args, existence).Some? && AllLoad(Targets(args, existence).value, load) ==>
                var hosts := Hosts(Targets(args, existence).value, load);
                var t := Outcome(Init(|hosts|), steps);
                && (exists order :: multiset(order) == multiset(hosts) && acted == old(acted) + order)
                && (if AllSucceeded(t)
                    then saved == old(saved) + hosts[..FirstFailure(hosts, save)] &&
                         ok == (FirstFailure(hosts, save) == |hosts|)
                    else !ok && saved == old(saved))
    {
      ok := false;
      if Targets(args, existence).None? { return; }
      var names := Targets(args, existence).value;
      var hosts, errors := LoadHosts(names, load);
      ErrorsTellLoads(names, load, errors);
      if |errors| > 0 { return; }
      AllLoadedAreKept(names, load);
      if |hosts| == 0 { return; }
      var errs := RunActionForeachMachine(hosts, steps);
      if |errs| > 0 { return; }
      ok := SaveAll(hosts, save);
    }

    /** runActionForeachMachine */
    method RunActionForeachMachine(hosts: seq<Host>, steps: seq<Step<Option<Error>>>) returns (errs: seq<Error>)
      requires Completes(|hosts|, steps)
      modifies `acted
      ensures var t := Outcome(Init(|hosts|), steps);
              && (exists order :: multiset(order) == multiset(hosts) && acted == old(acted) + order)
              && |t.workers| == |hosts| && (forall i :: 0 <= i < |hosts| ==> t.workers[i].Sent?)
              && multiset(errs) == multiset(Errors(Values(t.workers)))
              && (errs == [] <==> AllSucceeded(t))
    {
      ghost var t := Outcome(Init<Option<Error>>(|hosts|), steps);
      EveryMachineActsOnce(|hosts|, steps);
      ActedOnEachHost(hosts, t.ran);
      acted := acted + Acted(hosts, t.ran);
      errs := CollectErrors(Outcome(Init<Option<Error>>(|hosts|), steps).received);
      assert |multiset(errs)| == |errs| && |multiset(Errors(Values(t.workers)))| == |Errors(Values(t.workers))|;
      NoErrors(Values(t.workers));
      assert forall i :: 0 <= i < |hosts| ==> Values(t.workers)[i] == t.workers[i].value;
      if Errors(Values(t.workers)) == [] {
        forall i | 0 <= i < |hosts| ensures t.workers[i] == Sent(None) { assert Values(t.workers)[i].None?; }
      }
    }

    method SaveAll(hosts: seq<Host>, save: Host -> bool) returns (ok: bool)
      modifies `saved
      ensures saved == old(saved) + hosts[..FirstFailure(hosts, save)]
      ensures ok == (FirstFailure(hosts, save) == |hosts|)
    {
      for i := 0 to |hosts|
        invariant saved == old(saved) + hosts[..i]
        invariant forall j :: 0 <= j < i ==> save(hosts[j])
      {
        if !save(hosts[i]) { return false; }
        saved := saved + [hosts[i]];
      }
      return true;
    }
  }

  /** `steps` is an interleaving of `n` goroutines and their collector, up to its end. */
  predicate Completes(n: nat, steps: seq<Step<Option<Error>>>) {
    IsRun(Init(n), steps) && Outcome(Init(n), steps).closed
  }

  lemma ErrorsTellLoads(names: seq<string>, load: string -> Loaded, errors: map<string, Error>)
    requires forall k :: k in errors <==> k in names && load(k).Err?
    ensures |errors| == 0 <==> AllLoad(names, load)
  {
    if k :| k in errors { assert k in names && load(k).Err?; }
    forall i | 0 <= i < |names| && |errors| == 0 ensures load(names[i]).Ok? { assert names[i] !in errors; }
  }
}
