/** The inbound permissions that the EC2 driver adds to a security group. */
module Ec2Permissions {
  import opened Decimal
  import opened Ports
  import opened Wrappers

  datatype Source = Everyone | SameGroup

  datatype Permission = Permission(protocol: string, fromPort: Option<int>, toPort: int, source: Source)

  datatype Group = Group(name: string, tagKeys: seq<string>, permissions: seq<Permission>)

  const GROUP_NAME := "rancher-nodes"

  /** The key that a permission is known by, if it is for ports. */
  predicate Covers(p: Permission, key: string) {
    p.fromPort.Some? && key == Key(Format(p.fromPort.value), p.protocol)
  }

  predicate Has(ps: seq<Permission>, key: string) { exists i :: 0 <= i < |ps| && Covers(ps[i], key) }

  function Range(protocol: string, lo: int, hi: int, source: Source): Permission {
    Permission(protocol, Some(lo), hi, source)
  }

  /** What every group gets. */
  function Basics(): seq<Permission> { [Range("tcp", 22, 22, Everyone), Range("tcp", 2376, 2376, Everyone)] }

  /** What the driver's own group gets besides: the Kubernetes ports. */
  function Extras(): seq<Permission> {
    [Range("tcp", 6443, 6443, Everyone),
     Range("tcp", 2379, 2380, SameGroup),
     Range("udp", 4789, 4789, SameGroup),
     Range("udp", 8472, 8472, SameGroup),
     Range("tcp", 10250, 10252, SameGroup),
     Range("tcp", 10256, 10256, SameGroup),
     Range("tcp", 9796, 9796, SameGroup),
     Range("tcp", 30000, 32767, Everyone),
     Range("udp", 30000, 32767, Everyone),
     Range("tcp", 80, 80, Everyone),
     Range("tcp", 443, 443, Everyone),
     Range("tcp", 179, 179, SameGroup)]
  }

  predicate IsOwnGroup(g: Group) { g.name == GROUP_NAME && GROUP_NAME in g.tagKeys }

  function Standard(g: Group): seq<Permission> { Basics() + if IsOwnGroup(g) then Extras() else [] }

  /** A permission, and the key that tells whether it is there already. */
  datatype Want = Want(key: string, permission: Permission)

  function StandardWants(g: Group): seq<Want> { Wants(Standard(g)) }

  function Wants(ps: seq<Permission>): seq<Want> {
    seq(|ps|, i requires 0 <= i < |ps| => Want(Key(Format(ps[i].fromPort.GetOr(0)), ps[i].protocol), ps[i]))
  }

  /** The permission for a requested port, if its number can be read; it is looked up under the
      port as it is written. */
  function Requested(raw: string): Option<Want> {
    match ParseInt(Split(raw).0)
    case Number(n) => Some(Want(Ports.KeyOf(raw), Range(Split(raw).1, n, n, Everyone)))
    case _ => None
  }

  predicate AllReadable(ports: seq<string>) { forall i :: 0 <= i < |ports| ==> Requested(ports[i]).Some? }

  function PortWants(ports: seq<string>): seq<Want>
    requires AllReadable(ports)
  {
    seq(|ports|, i requires 0 <= i < |ports| => Requested(ports[i]).value)
  }

  /** The permissions among `wants` whose key `existing` does not have. */
  function Missing(wants: seq<Want>, existing: seq<Permission>): seq<Permission> {
    if wants == [] then []
    else
      var n := |wants| - 1;
      Missing(wants[..n], existing) + if Has(existing, wants[n].key) then [] else [wants[n].permission]
  }

  datatype Result = Add(permissions: seq<Permission>) | InvalidPort

  function Configure(g: Group, openPorts: seq<string>, readOnly: bool): Result {
    if readOnly then Add([])
    else if !AllReadable(openPorts) then InvalidPort
    else Add(Missing(StandardWants(g) + PortWants(openPorts), g.permissions))
  }

  // ----- as the driver does it

  /** hasTagKey */
  method HasTagKey(keys: seq<string>, key: string) returns (r: bool)
    ensures r <==> key in keys
  {
    for i := 0 to |keys|
      invariant key !in keys[..i]
    {
      if keys[i] == key { return true; }
    }
    return false;
  }

  lemma HasOneMore(ps: seq<Permission>, p: Permission, k: string)
    ensures Has(ps + [p], k) <==> Has(ps, k) || Covers(p, k)
  {
    HasConcat(ps, [p], k);
    assert Covers(p, k) ==> Covers([p][0], k);
  }

  method PortsInbound(ps: seq<Permission>) returns (has: set<string>)
    ensures forall k :: k in has <==> Has(ps, k)
  {
    has := {};
    for i := 0 to |ps|
      invariant forall k :: k in has <==> Has(ps[..i], k)
    {
      assert ps[..i + 1] == ps[..i] + [ps[i]];
      forall k ensures Has(ps[..i + 1], k) <==> Has(ps[..i], k) || Covers(ps[i], k) { HasOneMore(ps[..i], ps[i], k); }
      if ps[i].fromPort.Some? {
        has := has + {Key(Format(ps[i].fromPort.value), ps[i].protocol)};
      }
    }
    assert ps[..|ps|] == ps;
  }

  method AddMissing(perms: seq<Permission>, wants: seq<Want>, has: set<string>, ghost existing: seq<Permission>)
      returns (r: seq<Permission>)
    requires forall k :: k in has <==> Has(existing, k)
    ensures r == perms + Missing(wants, existing)
  {
    r := perms;
    for i := 0 to |wants|
      invariant r == perms + Missing(wants[..i], existing)
    {
      assert wants[..i + 1][..i] == wants[..i];
      if wants[i].key !in has { r := r + [wants[i].permission]; }
    }
    assert wants[..|wants|] == wants;
  }

  /** What is made of each requested port. */
  function Requests(ports: seq<string>): seq<Option<Want>> {
    seq(|ports|, i requires 0 <= i < |ports| => Requested(ports[i]))
  }

  predicate AllRead(requests: seq<Option<Want>>) { forall i :: 0 <= i < |requests| ==> requests[i].Some? }

  function WantsOf(requests: seq<Option<Want>>): seq<Want>
    requires AllRead(requests)
  {
    seq(|requests|, i requires 0 <= i < |requests| => requests[i].value)
  }

  lemma RequestsArePortWants(ports: seq<string>)
    ensures AllRead(Requests(ports)) <==> AllReadable(ports)
    ensures AllReadable(ports) ==> WantsOf(Requests(ports)) == PortWants(ports)
  {
    var rs := Requests(ports);
    if AllRead(rs) {
      forall i | 0 <= i < |ports| ensures Requested(ports[i]).Some? { assert rs[i].Some?; }
    }
  }

  /** The loop over requested ports; the first one that cannot be read is an error. */
  method AddPorts(perms: seq<Permission>, requests: seq<Option<Want>>, has: set<string>,
                  ghost standard: seq<Want>, ghost existing: seq<Permission>) returns (r: Result)
    requires forall k :: k in has <==> Has(existing, k)
    requires perms == Missing(standard, existing)
    ensures r == if AllRead(requests) then Add(Missing(standard + WantsOf(requests), existing)) else InvalidPort
  {
    var inboundPerms := perms;
    ghost var wants: seq<Want> := [];
    assert standard + wants == standard;
    for i := 0 to |requests|
      invariant |wants| == i && forall j :: 0 <= j < i ==> requests[j] == Some(wants[j])
      invariant inboundPerms == Missing(standard + wants, existing)
    {
      if requests[i].None? { return InvalidPort; }
      var want := requests[i].value;
      MissingOneMore(standard, wants, want, existing);
      wants := wants + [want];
      if want.key !in has { inboundPerms := inboundPerms + [want.permission]; }
    }
    assert wants == WantsOf(requests);
    return Add(inboundPerms);
  }

  /** configureSecurityGroupPermissions */
  method ConfigureSecurityGroupPermissions(g: Group, openPorts: seq<string>, readOnly: bool) returns (r: Result)
    ensures r == Configure(g, openPorts, readOnly)
  {
    if readOnly { return Add([]); }
    var has := PortsInbound(g.permissions);
    var tagged := HasTagKey(g.tagKeys, GROUP_NAME);
    var standard := if g.name == GROUP_NAME && tagged then Wants(Basics() + Extras()) else Wants(Basics() + []);
    var perms := AddMissing([], standard, has, g.permissions);
    RequestsArePortWants(openPorts);
    r := AddPorts(perms, Requests(openPorts), has, standard, g.permissions);
  }

  lemma MissingOneMore(a: seq<Want>, b: seq<Want>, w: Want, existing: seq<Permission>)
    ensures Missing(a + (b + [w]), existing) ==
            Missing(a + b, existing) + if Has(existing, w.key) then [] else [w.permission]
  {
    var all := a + (b + [w]);
    assert all[..|all| - 1] == a + b;
  }

  // ----- convergence

  lemma HasConcat(ps: seq<Permission>, qs: seq<Permission>, k: string)
    ensures Has(ps + qs, k) <==> Has(ps, k) || Has(qs, k)
  {
    if Has(ps, k) {
      var i :| 0 <= i < |ps| && Covers(ps[i], k);
      assert Covers((ps + qs)[i], k);
    }
    if Has(qs, k) {
      var i :| 0 <= i < |qs| && Covers(qs[i], k);
      assert Covers((ps + qs)[|ps| + i], k);
    }
  }

  /** A port number written the way it is printed. */
  predicate Canonical(raw: string) {
    Requested(raw).Some? && Format(Requested(raw).value.permission.fromPort.GetOr(0)) == Split(raw).0
  }

  /** Ports of permissions are 64-bit integers. */
  predicate InRange(p: Permission) {
    p.fromPort.Some? ==> -MAX_INT - 1 <= p.fromPort.value <= MAX_INT
  }

  predicate AllInRange(ps: seq<Permission>) { forall i :: 0 <= i < |ps| ==> InRange(ps[i]) }

  lemma {:induction false} WantsAreMet(wants: seq<Want>, existing: seq<Permission>, i: nat)
    requires i < |wants|
    ensures Has(existing, wants[i].key) || wants[i].permission in Missing(wants, existing)
  {
    var n := |wants| - 1;
    if i < n {
      WantsAreMet(wants[..n], existing, i);
    }
  }

  lemma {:induction false} NothingMissingIfMet(wants: seq<Want>, existing: seq<Permission>)
    requires forall i :: 0 <= i < |wants| ==> Has(existing, wants[i].key)
    ensures Missing(wants, existing) == []
  {
    if wants != [] { NothingMissingIfMet(wants[..|wants| - 1], existing); }
  }

  lemma {:induction false} MissingIsNew(wants: seq<Want>, existing: seq<Permission>, p: Permission)
    requires p in Missing(wants, existing)
    ensures exists i :: 0 <= i < |wants| && wants[i].permission == p && !Has(existing, wants[i].key)
  {
    var n := |wants| - 1;
    if p in Missing(wants[..n], existing) {
      MissingIsNew(wants[..n], existing, p);
      var i :| 0 <= i < n && wants[..n][i].permission == p && !Has(existing, wants[..n][i].key);
      assert wants[i].permission == p && !Has(existing, wants[i].key);
    } else {
      assert wants[n].permission == p && !Has(existing, wants[n].key);
    }
  }

  /** A want that some permission answers is answered by its own. */
  ghost predicate Sound(w: Want) {
    && InRange(w.permission)
    && forall p :: InRange(p) && Covers(p, w.key) ==> Covers(w.permission, w.key)
  }

  /** Every want whose key fits its permission is met once the missing ones are added. */
  lemma MetOnceAdded(wants: seq<Want>, existing: seq<Permission>, i: nat)
    requires i < |wants| && Covers(wants[i].permission, wants[i].key)
    ensures Has(existing + Missing(wants, existing), wants[i].key)
  {
    WantsAreMet(wants, existing, i);
    HasConcat(existing, Missing(wants, existing), wants[i].key);
    if wants[i].permission in Missing(wants, existing) {
      var j :| 0 <= j < |Missing(wants, existing)| && Missing(wants, existing)[j] == wants[i].permission;
      assert Covers(Missing(wants, existing)[j], wants[i].key);
    }
  }

  lemma MetOnlyIfFit(wants: seq<Want>, ps: seq<Permission>, i: nat)
    requires i < |wants| && Sound(wants[i]) && AllInRange(ps) && Missing(wants, ps) == []
    ensures Covers(wants[i].permission, wants[i].key)
  {
    WantsAreMet(wants, ps, i);
    var j :| 0 <= j < |ps| && Covers(ps[j], wants[i].key);
    assert InRange(ps[j]);
  }

  lemma AddedAreInRange(wants: seq<Want>, existing: seq<Permission>)
    requires AllInRange(existing) && forall i :: 0 <= i < |wants| ==> Sound(wants[i])
    ensures AllInRange(existing + Missing(wants, existing))
  {
    var missing := Missing(wants, existing);
    forall j | 0 <= j < |missing| ensures InRange(missing[j]) {
      MissingIsNew(wants, existing, missing[j]);
      var i :| 0 <= i < |wants| && wants[i].permission == missing[j];
      assert Sound(wants[i]);
    }
  }

  /** Adding what is missing leaves nothing missing if and only if every want's permission is
      found under the key it is looked up by. */
  lemma AddingSettlesExactly(wants: seq<Want>, existing: seq<Permission>)
    requires AllInRange(existing) && forall i :: 0 <= i < |wants| ==> Sound(wants[i])
    ensures Missing(wants, existing + Missing(wants, existing)) == []
            <==> forall i :: 0 <= i < |wants| ==> Covers(wants[i].permission, wants[i].key)
  {
    var after := existing + Missing(wants, existing);
    if forall i :: 0 <= i < |wants| ==> Covers(wants[i].permission, wants[i].key) {
      forall i | 0 <= i < |wants| ensures Has(after, wants[i].key) { MetOnceAdded(wants, existing, i); }
      NothingMissingIfMet(wants, after);
    }
    if Missing(wants, after) == [] {
      AddedAreInRange(wants, existing);
      forall i | 0 <= i < |wants| ensures Covers(wants[i].permission, wants[i].key) {
        MetOnlyIfFit(wants, after, i);
      }
    }
  }

  lemma PortsArePorts(g: Group, i: nat)
    requires i < |Standard(g)|
    ensures Standard(g)[i].fromPort.Some? && 0 < Standard(g)[i].fromPort.value < 65536
  {
  }

  lemma StandardIsSound(g: Group, i: nat)
    requires i < |StandardWants(g)|
    ensures Sound(StandardWants(g)[i]) && Covers(StandardWants(g)[i].permission, StandardWants(g)[i].key)
  {
    PortsArePorts(g, i);
    assert StandardWants(g)[i].permission == Standard(g)[i];
  }

  lemma NoSlashInNumbers(n: int)
    ensures '/' !in Format(n)
  {
  }

  /** A requested port is looked up as it is written, and so is only ever found if that is how
      its number is printed. */
  lemma PortIsSound(raw: string)
    requires Requested(raw).Some?
    ensures var w := Requested(raw).value; Sound(w) && (Covers(w.permission, w.key) <==> Canonical(raw))
  {
    var w := Requested(raw).value;
    forall p | InRange(p) && Covers(p, w.key) ensures Canonical(raw) {
      var n := p.fromPort.value;
      NoSlashInNumbers(n);
      KeyIsInjective(Split(raw).0, Split(raw).1, Format(n), p.protocol);
      FormatIsRead(n);
    }
  }

  /** After the permissions have been added, a second configuration asks for nothing more if and
      only if every requested port number is written the way it is printed. */
  lemma ConvergesExactly(g: Group, openPorts: seq<string>)
    requires AllInRange(g.permissions) && AllReadable(openPorts)
    ensures var added := Missing(StandardWants(g) + PortWants(openPorts), g.permissions);
            && Configure(g, openPorts, false) == Add(added)
            && (Configure(g.(permissions := g.permissions + added), openPorts, false) == Add([])
                <==> forall i :: 0 <= i < |openPorts| ==> Canonical(openPorts[i]))
  {
    var standard, ports := StandardWants(g), PortWants(openPorts);
    forall i | 0 <= i < |standard| ensures Sound(standard[i]) && Covers(standard[i].permission, standard[i].key) {
      StandardIsSound(g, i);
    }
    forall i | 0 <= i < |ports|
      ensures Sound(ports[i]) && (Covers(ports[i].permission, ports[i].key) <==> Canonical(openPorts[i]))
    {
      PortIsSound(openPorts[i]);
    }
    Settle(standard, ports, openPorts, g.permissions);
  }

  lemma Settle(standard: seq<Want>, ports: seq<Want>, openPorts: seq<string>, existing: seq<Permission>)
    requires AllInRange(existing) && |ports| == |openPorts|
    requires forall i :: 0 <= i < |standard| ==> Sound(standard[i]) && Covers(standard[i].permission, standard[i].key)
    requires forall i :: 0 <= i < |ports| ==>
               Sound(ports[i]) && (Covers(ports[i].permission, ports[i].key) <==> Canonical(openPorts[i]))
    ensures Missing(standard + ports, existing + Missing(standard + ports, existing)) == []
            <==> forall i :: 0 <= i < |openPorts| ==> Canonical(openPorts[i])
  {
    var wants := standard + ports;
    AddingSettlesExactly(wants, existing);
    if forall i :: 0 <= i < |wants| ==> Covers(wants[i].permission, wants[i].key) {
      forall i | 0 <= i < |openPorts| ensures Canonical(openPorts[i]) { assert wants[|standard| + i] == ports[i]; }
    }
  }

  lemma LeadingZeroIsRead(n: nat)
    requires n <= MAX_INT
    ensures ParseInt("0" + Digits(n)) == Number(n)
  {
    var raw := "0" + Digits(n);
    DigitsAreRead(n);
    ParseConcat("0", Digits(n), 0);
    assert raw[0] == '0';
  }

  /** A port with a leading zero is asked for again and again. */
  lemma LeadingZeroNeverSettles(g: Group, n: nat)
    requires AllInRange(g.permissions) && n <= MAX_INT
    ensures var ports := ["0" + Digits(n)];
            && AllReadable(ports)
            && var added := Missing(StandardWants(g) + PortWants(ports), g.permissions);
               Configure(g.(permissions := g.permissions + added), ports, false) != Add([])
  {
    var raw := "0" + Digits(n);
    LeadingZeroIsNotCanonical(n);
    assert !Canonical([raw][0]);
    ConvergesExactly(g, [raw]);
  }

  // ----- what is returned was not there before

  /** The key that a permission for ports is known by itself. */
  function OwnKey(p: Permission): string { Key(Format(p.fromPort.GetOr(0)), p.protocol) }

  /** None of the permissions has a key that `existing` has. */
  predicate AllNew(ps: seq<Permission>, existing: seq<Permission>) {
    forall i :: 0 <= i < |ps| ==> !Has(existing, OwnKey(ps[i]))
  }

  /** A want is looked up under its permission's own key, or that key is not there. */
  predicate Harmless(w: Want, existing: seq<Permission>) {
    w.key == OwnKey(w.permission) || !Has(existing, OwnKey(w.permission))
  }

  /** What is missing is new if and only if no want whose lookup misses is there under its own key. */
  lemma MissingIsNewExactly(wants: seq<Want>, existing: seq<Permission>)
    requires forall i :: 0 <= i < |wants| ==>
               wants[i].key == OwnKey(wants[i].permission) || !Has(existing, wants[i].key)
    ensures AllNew(Missing(wants, existing), existing)
            <==> forall i :: 0 <= i < |wants| ==> Harmless(wants[i], existing)
  {
    var missing := Missing(wants, existing);
    if forall i :: 0 <= i < |wants| ==> Harmless(wants[i], existing) {
      forall j | 0 <= j < |missing| ensures !Has(existing, OwnKey(missing[j])) {
        MissingIsNew(wants, existing, missing[j]);
        var i :| 0 <= i < |wants| && wants[i].permission == missing[j] && !Has(existing, wants[i].key);
        assert Harmless(wants[i], existing);
      }
    }
    if AllNew(missing, existing) {
      forall i | 0 <= i < |wants| ensures Harmless(wants[i], existing) {
        if wants[i].key != OwnKey(wants[i].permission) {
          WantsAreMet(wants, existing, i);
          var j :| 0 <= j < |missing| && missing[j] == wants[i].permission;
        }
      }
    }
  }

  /** A requested port is looked up under its permission's own key if it is written the way it
      is printed; otherwise no permission is found under the key it is looked up by. */
  lemma PortLookup(raw: string, existing: seq<Permission>)
    requires Requested(raw).Some? && AllInRange(existing)
    ensures var w := Requested(raw).value;
            && (w.key == OwnKey(w.permission) <==> Canonical(raw))
            && (!Canonical(raw) ==> !Has(existing, w.key))
  {
    var w := Requested(raw).value;
    PortIsSound(raw);
    assert Covers(w.permission, w.key) <==> w.key == OwnKey(w.permission);
    if Has(existing, w.key) {
      var j :| 0 <= j < |existing| && Covers(existing[j], w.key);
      assert InRange(existing[j]);
    }
  }

  /** A requested port is written the way it is printed, or its permission's key is not there. */
  predicate PortIsHarmless(raw: string, existing: seq<Permission>)
    requires Requested(raw).Some?
  {
    Canonical(raw) || !Has(existing, OwnKey(Requested(raw).value.permission))
  }

  /** No returned permission has a port and protocol that the group has already, if and only if
      each requested port is written the way it is printed or is not there under its own key. */
  lemma ReturnedAreNewExactly(g: Group, openPorts: seq<string>)
    requires AllInRange(g.permissions) && AllReadable(openPorts)
    ensures var added := Missing(StandardWants(g) + PortWants(openPorts), g.permissions);
            && Configure(g, openPorts, false) == Add(added)
            && (AllNew(added, g.permissions) <==>
                forall i :: 0 <= i < |openPorts| ==> PortIsHarmless(openPorts[i], g.permissions))
  {
    var standard, ports := StandardWants(g), PortWants(openPorts);
    forall i | 0 <= i < |standard| ensures standard[i].key == OwnKey(standard[i].permission) { StandardIsSound(g, i); }
    forall i | 0 <= i < |ports|
      ensures ports[i].key == OwnKey(ports[i].permission) || !Has(g.permissions, ports[i].key)
      ensures Harmless(ports[i], g.permissions) <==> PortIsHarmless(openPorts[i], g.permissions)
    {
      PortLookup(openPorts[i], g.permissions);
    }
    NewTogether(standard, ports, openPorts, g.permissions);
  }

  lemma NewTogether(standard: seq<Want>, ports: seq<Want>, openPorts: seq<string>, existing: seq<Permission>)
    requires |ports| == |openPorts| && AllReadable(openPorts)
    requires forall i :: 0 <= i < |standard| ==> standard[i].key == OwnKey(standard[i].permission)
    requires forall i :: 0 <= i < |ports| ==>
               ports[i].key == OwnKey(ports[i].permission) || !Has(existing, ports[i].key)
    requires forall i :: 0 <= i < |ports| ==> (Harmless(ports[i], existing) <==> PortIsHarmless(openPorts[i], existing))
    ensures AllNew(Missing(standard + ports, existing), existing)
            <==> forall i :: 0 <= i < |openPorts| ==> PortIsHarmless(openPorts[i], existing)
  {
    var wants := standard + ports;
    MissingIsNewExactly(wants, existing);
    if forall i :: 0 <= i < |wants| ==> Harmless(wants[i], existing) {
      forall i | 0 <= i < |openPorts| ensures PortIsHarmless(openPorts[i], existing) {
        assert wants[|standard| + i] == ports[i];
      }
    }
  }

  /** In particular, for ports written the way they are printed. */
  lemma CanonicalPortsReturnNew(g: Group, openPorts: seq<string>)
    requires AllInRange(g.permissions) && AllReadable(openPorts)
    requires forall i :: 0 <= i < |openPorts| ==> Canonical(openPorts[i])
    ensures AllNew(Configure(g, openPorts, false).permissions, g.permissions)
  {
    ReturnedAreNewExactly(g, openPorts);
  }

  /** A port with a leading zero is returned even if the group has the port. */
  lemma LeadingZeroIsReturnedAgain(g: Group, n: nat)
    requires AllInRange(g.permissions) && n <= MAX_INT && Has(g.permissions, Key(Format(n), "tcp"))
    ensures AllReadable(["0" + Digits(n)])
    ensures !AllNew(Configure(g, ["0" + Digits(n)], false).permissions, g.permissions)
  {
    var raw := "0" + Digits(n);
    LeadingZeroIsNotCanonical(n);
    assert !PortIsHarmless([raw][0], g.permissions);
    ReturnedAreNewExactly(g, [raw]);
  }

  lemma LeadingZeroIsNotCanonical(n: nat)
    requires n <= MAX_INT
    ensures var raw := "0" + Digits(n);
            && Requested(raw) == Some(Want(Ports.KeyOf(raw), Range("tcp", n, n, Everyone)))
            && !Canonical(raw)
  {
    var raw := "0" + Digits(n);
    assert forall c :: c in raw ==> IsDigit(c);
    assert Split(raw) == (raw, "tcp");
    LeadingZeroIsRead(n);
    assert |Format(n)| < |raw|;
  }

  // ----- which ports are wanted

  /** Docker and SSH for every group; for the driver's own one Kubernetes, etcd, overlay networks,
      node ports, ingress, metrics and routing besides. */
  predicate IsStandardPort(own: bool, protocol: string, port: int) {
    || (protocol == "tcp" && port in {22, 2376})
    || (own && protocol == "tcp" && port in {6443, 2379, 10250, 10256, 9796, 30000, 80, 443, 179})
    || (own && protocol == "udp" && port in {4789, 8472, 30000})
  }

  /** Most are single ports; etcd, the kubelet and the node ports have a range. */
  function LastPort(port: int): int {
    if port == 2379 then 2380 else if port == 10250 then 10252 else if port == 30000 then 32767 else port
  }

  /** What the nodes use among themselves is open to the group alone. */
  predicate IsInternal(port: int) { port in {2379, 4789, 8472, 10250, 10256, 9796, 179} }

  /** The permissions that a group without any is given, port by port. */
  lemma StandardExactly(g: Group, p: Permission)
    ensures p in Standard(g) <==>
            && p.fromPort.Some?
            && IsStandardPort(g.name == "rancher-nodes" && "rancher-nodes" in g.tagKeys, p.protocol, p.fromPort.value)
            && p.toPort == LastPort(p.fromPort.value)
            && p.source == if IsInternal(p.fromPort.value) then SameGroup else Everyone
  {
    if p.fromPort.Some? {
      BasicsExactly(p);
      ExtrasExactly(p);
    } else {
      assert forall i :: 0 <= i < |Basics()| ==> Basics()[i].fromPort.Some?;
      assert forall i :: 0 <= i < |Extras()| ==> Extras()[i].fromPort.Some?;
    }
  }

  lemma BasicsExactly(p: Permission)
    requires p.fromPort.Some?
    ensures p in Basics() <==>
            && p.protocol == "tcp" && p.fromPort.value in {22, 2376}
            && p.toPort == p.fromPort.value && p.source == Everyone
  {
    assert Basics()[0] == Range("tcp", 22, 22, Everyone) && Basics()[1] == Range("tcp", 2376, 2376, Everyone);
  }

  predicate IsExtra(p: Permission)
    requires p.fromPort.Some?
  {
    && (|| (p.protocol == "tcp" && p.fromPort.value in {6443, 2379, 10250, 10256, 9796, 30000, 80, 443, 179})
        || (p.protocol == "udp" && p.fromPort.value in {4789, 8472, 30000}))
    && p.toPort == LastPort(p.fromPort.value)
    && p.source == if IsInternal(p.fromPort.value) then SameGroup else Everyone
  }

  lemma ExtrasAreExtra(i: nat)
    requires i < |Extras()|
    ensures Extras()[i].fromPort.Some? && IsExtra(Extras()[i])
  {
  }

  lemma ExtraIsThere(p: Permission) returns (i: nat)
    requires p.fromPort.Some? && IsExtra(p)
    ensures i < |Extras()| && Extras()[i] == p
  {
    var port := p.fromPort.value;
    if p.protocol == "udp" {
      return if port == 4789 then 2 else if port == 8472 then 3 else 8;
    }
    if port in {6443, 2379, 10250, 10256} {
      return if port == 6443 then 0 else if port == 2379 then 1 else if port == 10250 then 4 else 5;
    }
    if port in {9796, 30000} { return if port == 9796 then 6 else 7; }
    return if port == 80 then 9 else if port == 443 then 10 else 11;
  }

  lemma ExtrasExactly(p: Permission)
    requires p.fromPort.Some?
    ensures p in Extras() <==> IsExtra(p)
  {
    if p in Extras() {
      var i :| 0 <= i < |Extras()| && Extras()[i] == p;
      ExtrasAreExtra(i);
    }
    if IsExtra(p) {
      var i := ExtraIsThere(p);
    }
  }

  function PermissionsOf(wants: seq<Want>): seq<Permission> {
    seq(|wants|, i requires 0 <= i < |wants| => wants[i].permission)
  }

  lemma {:induction false} EmptyGroupLacksAll(wants: seq<Want>)
    ensures Missing(wants, []) == PermissionsOf(wants)
  {
    if wants != [] {
      var n := |wants| - 1;
      EmptyGroupLacksAll(wants[..n]);
      assert PermissionsOf(wants) == PermissionsOf(wants[..n]) + [wants[n].permission];
    }
  }

  lemma PermissionsOfBoth(g: Group, ports: seq<Want>)
    ensures PermissionsOf(StandardWants(g) + ports) == Standard(g) + PermissionsOf(ports)
  {
  }

  /** A group without permissions gets all the standard ones and then the requested ports, unless one
      of them cannot be read; one that is read only gets nothing. */
  lemma EmptyGroupGetsAll(g: Group, openPorts: seq<string>)
    requires g.permissions == []
    ensures Configure(g, openPorts, true) == Add([])
    ensures Configure(g, openPorts, false) ==
            if AllReadable(openPorts) then Add(Standard(g) + PermissionsOf(PortWants(openPorts))) else InvalidPort
  {
    if AllReadable(openPorts) {
      EmptyGroupLacksAll(StandardWants(g) + PortWants(openPorts));
      PermissionsOfBoth(g, PortWants(openPorts));
    }
  }

  /** A requested port number, with its protocol or without, is opened to everyone. */
  lemma RequestedPort(n: nat, proto: string)
    requires n <= MAX_INT
    ensures Requested(Digits(n)) == Some(Want(Key(Digits(n), "tcp"), Range("tcp", n, n, Everyone)))
    ensures Requested(Key(Digits(n), proto)) == Some(Want(Key(Digits(n), proto), Range(proto, n, n, Everyone)))
  {
    assert forall c :: c in Digits(n) ==> IsDigit(c);
    assert Split(Digits(n)) == (Digits(n), "tcp");
    KeyIsSplit(Digits(n), proto);
    FormatIsRead(n);
  }
}
