/** How the Google driver extends its firewall rule by the ports it uses. */
module GoogleFirewall {
  import opened Permutations
  import opened Ports
  import opened Wrappers

  datatype Allowed = Allowed(protocol: string, ports: seq<string>)

  type Rule = seq<Allowed>

  /** The keys that a rule opens. */
  predicate Opens(rule: Rule, key: string) {
    exists i, j :: 0 <= i < |rule| && 0 <= j < |rule[i].ports| && Key(rule[i].ports[j], rule[i].protocol) == key
  }

  predicate Requests(ports: seq<string>, key: string) { exists i :: 0 <= i < |ports| && KeyOf(ports[i]) == key }

  /** The requested ports of protocol `proto` that are not open, in order. */
  function MissingFor(rule: Rule, ports: seq<string>, proto: string): seq<string> {
    if ports == [] then []
    else
      var n := |ports| - 1;
      MissingFor(rule, ports[..n], proto) +
      if Split(ports[n]).1 == proto && !Opens(rule, KeyOf(ports[n])) then [Split(ports[n]).0] else []
  }

  lemma OpensConcat(a: Rule, b: Rule, key: string)
    ensures Opens(a + b, key) <==> Opens(a, key) || Opens(b, key)
  {
    if Opens(a, key) {
      var i, j :| 0 <= i < |a| && 0 <= j < |a[i].ports| && Key(a[i].ports[j], a[i].protocol) == key;
      assert (a + b)[i] == a[i];
    }
    if Opens(b, key) {
      var i, j :| 0 <= i < |b| && 0 <= j < |b[i].ports| && Key(b[i].ports[j], b[i].protocol) == key;
      assert (a + b)[|a| + i] == b[i];
    }
  }

  lemma OpensOne(x: Allowed, key: string)
    ensures Opens([x], key) <==> exists j :: 0 <= j < |x.ports| && Key(x.ports[j], x.protocol) == key
  {
    if j :| 0 <= j < |x.ports| && Key(x.ports[j], x.protocol) == key {
      assert Key([x][0].ports[j], [x][0].protocol) == key;
    }
  }

  /** The first loop of missingOpenedPorts. */
  method OpenedPorts(rule: Rule) returns (keys: set<string>)
    ensures forall k :: k in keys <==> Opens(rule, k)
  {
    keys := {};
    for i := 0 to |rule|
      invariant forall k :: k in keys <==> Opens(rule[..i], k)
    {
      ghost var before := keys;
      for j := 0 to |rule[i].ports|
        invariant forall k :: k in keys <==>
                    k in before || exists l :: 0 <= l < j && Key(rule[i].ports[l], rule[i].protocol) == k
      {
        keys := keys + {Key(rule[i].ports[j], rule[i].protocol)};
      }
      assert rule[..i + 1] == rule[..i] + [rule[i]];
      forall k ensures Opens(rule[..i + 1], k) <==> k in keys {
        OpensConcat(rule[..i], [rule[i]], k);
        OpensOne(rule[i], k);
      }
    }
    assert rule[..|rule|] == rule;
  }

  /** `missing` has, for each protocol with ports that are not open, those ports. */
  ghost predicate IsMissing(missing: map<string, seq<string>>, rule: Rule, ports: seq<string>) {
    && (forall proto :: proto in missing <==> MissingFor(rule, ports, proto) != [])
    && (forall proto :: proto in missing ==> missing[proto] == MissingFor(rule, ports, proto))
  }

  /** missingOpenedPorts */
  method MissingOpenedPorts(rule: Rule, ports: seq<string>) returns (missing: map<string, seq<string>>)
    ensures IsMissing(missing, rule, ports)
  {
    var keys := OpenedPorts(rule);
    missing := map[];
    for i := 0 to |ports|
      invariant IsMissing(missing, rule, ports[..i])
    {
      assert ports[..i + 1][..i] == ports[..i];
      var (port, proto) := Split(ports[i]);
      if Key(port, proto) !in keys {
        missing := missing[proto := (if proto in missing then missing[proto] else []) + [port]];
      }
    }
    assert ports[..|ports|] == ports;
  }

  /** The entries appended to the rule, when Go iterates over the map in this order. */
  function Entries(order: seq<string>, missing: map<string, seq<string>>): seq<Allowed>
    requires forall i :: 0 <= i < |order| ==> order[i] in missing
  {
    seq(|order|, i requires 0 <= i < |order| => Allowed(order[i], missing[order[i]]))
  }

  /** The part of openFirewallPorts that changes the rule. */
  method UpdateRule(rule: Rule, missing: map<string, seq<string>>, order: seq<string>) returns (updated: Rule)
    requires Enumerates(order, missing)
    ensures updated == rule + Entries(order, missing)
  {
    updated := rule;
    for i := 0 to |order|
      invariant updated == rule + Entries(order, missing)[..i]
    {
      updated := updated + [Allowed(order[i], missing[order[i]])];
    }
  }

  // ----- convergence

  /** `raw` asks for this port, which is not open. */
  predicate Lacks(rule: Rule, raw: string, port: string, proto: string) {
    Split(raw) == (port, proto) && !Opens(rule, KeyOf(raw))
  }

  lemma MissingStep(rule: Rule, ports: seq<string>, raw: string, proto: string, port: string)
    ensures port in MissingFor(rule, ports + [raw], proto) <==>
            port in MissingFor(rule, ports, proto) || Lacks(rule, raw, port, proto)
  {
    var all := ports + [raw];
    assert all[..|all| - 1] == ports;
  }

  ghost predicate SomeLacks(rule: Rule, ports: seq<string>, port: string, proto: string) {
    exists i :: 0 <= i < |ports| && Lacks(rule, ports[i], port, proto)
  }

  lemma SomeLacksStep(rule: Rule, ports: seq<string>, raw: string, proto: string, port: string)
    ensures SomeLacks(rule, ports + [raw], port, proto) <==>
            SomeLacks(rule, ports, port, proto) || Lacks(rule, raw, port, proto)
  {
    var all := ports + [raw];
    assert all[|ports|] == raw;
    if SomeLacks(rule, ports, port, proto) {
      var i :| 0 <= i < |ports| && Lacks(rule, ports[i], port, proto);
      assert all[i] == ports[i];
    }
  }

  lemma {:induction false} WhatIsMissing(rule: Rule, ports: seq<string>, proto: string, port: string)
    ensures port in MissingFor(rule, ports, proto) <==> SomeLacks(rule, ports, port, proto)
  {
    if ports != [] {
      var n := |ports| - 1;
      assert ports == ports[..n] + [ports[n]];
      WhatIsMissing(rule, ports[..n], proto, port);
      MissingStep(rule, ports[..n], ports[n], proto, port);
      SomeLacksStep(rule, ports[..n], ports[n], proto, port);
    }
  }

  lemma EntriesWereMissing(rule: Rule, ports: seq<string>, missing: map<string, seq<string>>, order: seq<string>,
                           key: string)
    requires IsMissing(missing, rule, ports) && Enumerates(order, missing) && Opens(Entries(order, missing), key)
    ensures Requests(ports, key) && !Opens(rule, key)
  {
    var added := Entries(order, missing);
    var i, j :| 0 <= i < |added| && 0 <= j < |added[i].ports| && Key(added[i].ports[j], added[i].protocol) == key;
    assert order[i] in missing;
    WhatIsMissing(rule, ports, order[i], added[i].ports[j]);
    var l :| 0 <= l < |ports| && Lacks(rule, ports[l], added[i].ports[j], order[i]);
    assert KeyOf(ports[l]) == key;
  }

  lemma EntriesOpen(rule: Rule, ports: seq<string>, missing: map<string, seq<string>>, order: seq<string>, key: string)
    requires IsMissing(missing, rule, ports) && Enumerates(order, missing)
    ensures Opens(Entries(order, missing), key) <==> Requests(ports, key) && !Opens(rule, key)
  {
    if Opens(Entries(order, missing), key) { EntriesWereMissing(rule, ports, missing, order, key); }
    if Requests(ports, key) && !Opens(rule, key) {
      var l :| 0 <= l < |ports| && KeyOf(ports[l]) == key;
      var (port, proto) := Split(ports[l]);
      WhatIsMissing(rule, ports, proto, port);
      assert Lacks(rule, ports[l], port, proto);
      assert proto in order;
      var i :| 0 <= i < |order| && order[i] == proto;
      var j :| 0 <= j < |missing[proto]| && missing[proto][j] == port;
      var added := Entries(order, missing);
      assert Key(added[i].ports[j], added[i].protocol) == key;
    }
  }

  /** Whatever the order of the map, the updated rule keeps the old entries in front and opens
      exactly the old keys and the requested ones. */
  lemma UpdateOpensExactly(rule: Rule, ports: seq<string>, missing: map<string, seq<string>>, order: seq<string>,
                           key: string)
    requires IsMissing(missing, rule, ports) && Enumerates(order, missing)
    ensures Opens(rule + Entries(order, missing), key) <==> Opens(rule, key) || Requests(ports, key)
  {
    OpensConcat(rule, Entries(order, missing), key);
    EntriesOpen(rule, ports, missing, order, key);
  }

  lemma {:induction false} NothingMissing(rule: Rule, ports: seq<string>, proto: string)
    requires forall i :: 0 <= i < |ports| ==> Opens(rule, KeyOf(ports[i]))
    ensures MissingFor(rule, ports, proto) == []
  {
    if ports != [] { NothingMissing(rule, ports[..|ports| - 1], proto); }
  }

  /** A second pass over the updated rule finds nothing missing. */
  lemma SecondPassIsQuiet(rule: Rule, ports: seq<string>, missing: map<string, seq<string>>, order: seq<string>,
                          again: map<string, seq<string>>)
    requires IsMissing(missing, rule, ports) && Enumerates(order, missing)
    requires IsMissing(again, rule + Entries(order, missing), ports)
    ensures again == map[]
  {
    var updated := rule + Entries(order, missing);
    forall i | 0 <= i < |ports| ensures Opens(updated, KeyOf(ports[i])) {
      assert Requests(ports, KeyOf(ports[i]));
      UpdateOpensExactly(rule, ports, missing, order, KeyOf(ports[i]));
    }
    forall proto ensures proto !in again { NothingMissing(updated, ports, proto); }
  }

  // ----- the ports in use

  /** The docker port, the swarm master's port if there is one, and the open ports, all with
      their protocol. */
  function Used(swarmPort: Option<string>, openPorts: seq<string>): seq<string> {
    ["2376/tcp"]
    + (if swarmPort.Some? then [Key(swarmPort.value, "tcp")] else [])
    + seq(|openPorts|, i requires 0 <= i < |openPorts| => KeyOf(openPorts[i]))
  }

  /** portsUsed */
  method PortsUsed(swarmPort: Option<string>, openPorts: seq<string>) returns (ports: seq<string>)
    ensures ports == Used(swarmPort, openPorts)
  {
    ports := ["2376/tcp"];
    if swarmPort.Some? { ports := ports + [Key(swarmPort.value, "tcp")]; }
    ports := AddOpenPorts(ports, openPorts);
  }

  /** The loop of portsUsed. */
  method AddOpenPorts(base: seq<string>, openPorts: seq<string>) returns (ports: seq<string>)
    ensures ports == base + seq(|openPorts|, i requires 0 <= i < |openPorts| => KeyOf(openPorts[i]))
  {
    ports := base;
    for i := 0 to |openPorts|
      invariant ports == base + seq(i, j requires 0 <= j < i => KeyOf(openPorts[j]))
    {
      var (port, proto) := Split(openPorts[i]);
      ports := ports + [Key(port, proto)];
    }
  }

  /** Writing the protocol out does not change what a port asks for. */
  lemma UsedPortsAskTheSame(swarmPort: Option<string>, openPorts: seq<string>, i: nat)
    requires i < |openPorts|
    ensures var n := |Used(swarmPort, openPorts)| - |openPorts|;
            KeyOf(Used(swarmPort, openPorts)[n + i]) == KeyOf(openPorts[i])
  {
    KeyIsSplit(Split(openPorts[i]).0, Split(openPorts[i]).1);
  }

  lemma RequestsConcat(a: seq<string>, b: seq<string>, key: string)
    ensures Requests(a + b, key) <==> Requests(a, key) || Requests(b, key)
  {
    if Requests(a, key) {
      var i :| 0 <= i < |a| && KeyOf(a[i]) == key;
      assert (a + b)[i] == a[i];
    }
    if Requests(b, key) {
      var i :| 0 <= i < |b| && KeyOf(b[i]) == key;
      assert (a + b)[|a| + i] == b[i];
    }
  }

  lemma RequestsOne(raw: string, key: string)
    ensures Requests([raw], key) <==> KeyOf(raw) == key
  {
    assert [raw][0] == raw;
  }

  lemma OpenPortsAskTheSame(openPorts: seq<string>, key: string)
    ensures var keys := seq(|openPorts|, i requires 0 <= i < |openPorts| => KeyOf(openPorts[i]));
            Requests(keys, key) <==> Requests(openPorts, key)
  {
    var keys := seq(|openPorts|, i requires 0 <= i < |openPorts| => KeyOf(openPorts[i]));
    forall i | 0 <= i < |openPorts| ensures KeyOf(keys[i]) == KeyOf(openPorts[i]) {
      KeyIsSplit(Split(openPorts[i]).0, Split(openPorts[i]).1);
    }
    if Requests(openPorts, key) {
      var i :| 0 <= i < |openPorts| && KeyOf(openPorts[i]) == key;
      assert KeyOf(keys[i]) == key;
    }
  }

  lemma DockerPort()
    ensures KeyOf("2376/tcp") == "2376/tcp"
  {
    KeyIsSplit("2376", "tcp");
    assert Key("2376", "tcp") == "2376/tcp";
  }

  lemma RequestsOfParts(docker: string, swarm: seq<string>, openPorts: seq<string>, key: string)
    requires KeyOf(docker) == docker
    ensures var open := seq(|openPorts|, i requires 0 <= i < |openPorts| => KeyOf(openPorts[i]));
            Requests([docker] + swarm + open, key) <==>
            key == docker || Requests(swarm, key) || Requests(openPorts, key)
  {
    var open := seq(|openPorts|, i requires 0 <= i < |openPorts| => KeyOf(openPorts[i]));
    RequestsConcat([docker] + swarm, open, key);
    RequestsConcat([docker], swarm, key);
    RequestsOne(docker, key);
    OpenPortsAskTheSame(openPorts, key);
  }

  /** Asked for are docker's port, the swarm master's and the open ports, and nothing else. */
  lemma UsedPortsExactly(swarmPort: Option<string>, openPorts: seq<string>, key: string)
    requires swarmPort.Some? ==> '/' !in swarmPort.value
    ensures Requests(Used(swarmPort, openPorts), key) <==>
            || key == "2376/tcp"
            || (swarmPort.Some? && key == Key(swarmPort.value, "tcp"))
            || Requests(openPorts, key)
  {
    DockerPort();
    if swarmPort.Some? {
      var swarm := Key(swarmPort.value, "tcp");
      KeyIsSplit(swarmPort.value, "tcp");
      RequestsOne(swarm, key);
      RequestsOfParts("2376/tcp", [swarm], openPorts, key);
    } else {
      RequestsOfParts("2376/tcp", [], openPorts, key);
    }
  }
}
