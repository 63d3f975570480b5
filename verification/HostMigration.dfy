/** Migration of stored host configurations to the current version. */
module HostMigration {
  import opened StoredConfig
  import opened Wrappers

  const CURRENT := 3

  /** Panicked: a nil dereference, for a document without a driver or without options. */
  datatype Outcome = Loaded(host: Host, migrated: bool) | Failed | Panicked

  /** filepath.Dir and filepath.Join */
  datatype Paths = Paths(dir: string -> string, join: (string, string) -> string) {
    function Global(storePath: string): string { dir(dir(storePath)) }
  }

  // ----- one version to the next

  function V0ToV1(v0: V0): V1 {
    V1(0, v0.driverName, v0.driver,
       Some(Options("", 0, 0,
                    Some(Engine(true, "https://get.docker.com", Unset)),
                    Some(Swarm("", v0.swarmDiscovery, v0.swarmHost, v0.swarmMaster, Unset)),
                    Some(AuthV1(v0.storePath, v0.caCertPath, "", v0.serverCertPath, v0.serverKeyPath,
                                v0.clientKeyPath, "", "", v0.privateKeyPath, v0.clientCertPath)))),
       "")
  }

  /** What the code dereferences without a check. */
  predicate Complete(v1: V1) { v1.driver.Some? && v1.options.Some? && v1.options.value.auth.Some? }

  function V1ToV2(v1: V1, name: string, paths: Paths): V2
    requires Complete(v1)
  {
    var store := paths.Global(v1.storePath);
    var o := v1.options.value;
    var a := o.auth.value;
    V2(v1.configVersion, v1.driverName, v1.driver,
       Some(Options(o.driver, o.memory, o.disk, o.engine, o.swarm,
                    Some(Auth(paths.join(store, "certs"), a.caCertPath, a.privateKeyPath, a.caCertRemotePath,
                              a.serverCertPath, a.serverKeyPath, a.clientKeyPath, a.serverCertRemotePath,
                              a.serverKeyRemotePath, a.clientCertPath, [], store)))),
       name)
  }

  /** The raw driver with the store path written into it; a driver that is no object is lost. */
  function WithStorePath(driver: Json, store: string): Json {
    Obj((if driver.Obj? then driver.fields else map[])["StorePath" := Scalar(store)])
  }

  function V2ToV3(v2: V2, driver: Json, store: string): Host {
    Host(2, v2.driverName, None, v2.options, v2.name, Some(WithStorePath(driver, store)))
  }

  // ----- the whole migration, version by version

  function ToV1(doc: Document): Option<V1> {
    if doc.configVersion <= 0
    then if V0Struct in doc.unreadable then None else Some(V0ToV1(doc.AsV0()))
    else if V1Struct in doc.unreadable then None else Some(doc.AsV1())
  }

  datatype Step = Ready(v2: V2) | Unreadable | Nil

  function ToV2(doc: Document, name: string, paths: Paths): Step {
    if doc.configVersion == 2
    then if V2Struct in doc.unreadable then Unreadable else Ready(doc.AsV2())
    else match ToV1(doc)
      case None => Unreadable
      case Some(v1) => if Complete(v1) then Ready(V1ToV2(v1, name, paths)) else Nil
  }

  function Migrated(doc: Document, name: string, paths: Paths): Outcome {
    match ToV2(doc, name, paths)
    case Unreadable => Failed
    case Nil => Panicked
    case Ready(v2) =>
      if doc.driver == Missing || doc.driver == There(Null) then Panicked
      else
        var h := V2ToV3(v2, doc.driver.json, paths.Global(doc.storePath));
        Loaded(h.(configVersion := CURRENT, driver := Some(h.rawDriver)), true)
  }

  function Migrate(doc: Document, name: string, paths: Paths): Outcome {
    if MetadataStruct in doc.unreadable || doc.configVersion > CURRENT then Failed
    else if doc.configVersion < CURRENT then Migrated(doc, name, paths)
    else if HostStruct in doc.unreadable then Failed
    else
      var h := doc.AsHost(name);
      Loaded(h.(rawDriver := if h.driver.Some? then h.driver.value else None), false)
  }

  /** MigrateHost, for a host that has only its name yet.  The loop counts in the host's own version
      field, and its last round replaces the host by one of version 2, which the loop's increment
      then makes current. */
  method MigrateHost(name: string, doc: Document, paths: Paths) returns (r: Outcome)
    ensures r == Migrate(doc, name, paths)
  {
    if MetadataStruct in doc.unreadable { return Failed; }
    var globalStorePath := paths.Global(doc.storePath);
    var data: Option<Json> := None;   // of the RawDataDriver
    if doc.configVersion > CURRENT { return Failed; }
    var h, migrated := Host(0, "", None, None, name, None), false;
    if doc.configVersion == CURRENT {
      if HostStruct in doc.unreadable { return Failed; }
      h := doc.AsHost(h.name);
      data := if h.driver.Some? then h.driver.value else None;
    } else {
      migrated := true;
      var hostV1: Option<V1>, hostV2: Option<V2> := None, None;
      h := h.(configVersion := doc.configVersion);
      while h.configVersion < CURRENT
        invariant doc.configVersion <= h.configVersion <= CURRENT
        invariant hostV1.Some? ==> hostV1 == ToV1(doc)
        invariant h.configVersion == 1 && doc.configVersion <= 0 ==> hostV1.Some?
        invariant h.configVersion == 1 && doc.configVersion == 1 ==> hostV1.None?
        invariant hostV2.Some? ==> ToV2(doc, name, paths) == Ready(hostV2.value)
        invariant h.configVersion == 2 && doc.configVersion <= 1 ==> hostV2.Some?
        invariant h.configVersion == 2 && doc.configVersion == 2 ==> hostV2.None?
        invariant h.configVersion == CURRENT ==> Migrated(doc, name, paths) == Loaded(h.(rawDriver := data), true)
        decreases CURRENT - h.configVersion
      {
        if h.configVersion == 0 {
          if V0Struct in doc.unreadable { return Failed; }
          hostV1 := Some(V0ToV1(doc.AsV0()));
        } else if h.configVersion == 1 {
          if hostV1.None? {
            if V1Struct in doc.unreadable { return Failed; }
            hostV1 := Some(doc.AsV1());
          }
          if !Complete(hostV1.value) { return Panicked; }
          hostV2 := Some(V1ToV2(hostV1.value, name, paths));
        } else if h.configVersion == 2 {
          if hostV2.None? {
            if V2Struct in doc.unreadable { return Failed; }
            hostV2 := Some(doc.AsV2());
          }
          if doc.driver == Missing || doc.driver == There(Null) { return Panicked; }
          h := V2ToV3(hostV2.value, doc.driver.json, globalStorePath);
          data := h.rawDriver;
          h := h.(driver := Some(data));
        }
        h := h.(configVersion := h.configVersion + 1);
      }
    }
    r := Loaded(h.(rawDriver := data), migrated);
  }

  // ----- what a migration keeps

  /** A document that a version of the program wrote: it can be read, it has a driver, and from
      version 1 on it has options. */
  predicate WellFormed(doc: Document) {
    && doc.unreadable == {}
    && doc.driver.There? && doc.driver.json.Obj?
    && (doc.configVersion == 1 ==> doc.options.Some? && doc.options.value.auth.Some?)
  }

  /** Every well-formed document up to the current version loads at the current version, and a
      migration is reported exactly for the older ones. */
  lemma WellFormedLoads(doc: Document, name: string, paths: Paths)
    requires WellFormed(doc) && doc.configVersion <= CURRENT
    ensures var r := Migrate(doc, name, paths);
            && r.Loaded?
            && r.host.configVersion == CURRENT
            && r.migrated == (doc.configVersion < CURRENT)
            && r.host.driverName == doc.driverName
  {
  }

  function NeededStruct(doc: Document): Struct {
    if doc.configVersion <= 0 then V0Struct else if doc.configVersion == 1 then V1Struct else V2Struct
  }

  /** Exactly which old documents can be migrated; the others fail or, lacking what the code
      takes for granted, panic. */
  lemma MigratesExactly(doc: Document, name: string, paths: Paths)
    requires doc.configVersion < CURRENT
    ensures Migrate(doc, name, paths).Loaded? <==>
            && MetadataStruct !in doc.unreadable && NeededStruct(doc) !in doc.unreadable
            && doc.driver != Missing && doc.driver != There(Null)
            && (doc.configVersion == 1 ==> doc.options.Some? && doc.options.value.auth.Some?)
  {
  }

  /** Exactly which documents fail, and which panic: from the future or not readable, and lacking
      what the code takes for granted. */
  lemma FailsExactly(doc: Document, name: string, paths: Paths)
    ensures Migrate(doc, name, paths) == Failed <==>
            || MetadataStruct in doc.unreadable || doc.configVersion > CURRENT
            || (if doc.configVersion == CURRENT then HostStruct else NeededStruct(doc)) in doc.unreadable
    ensures Migrate(doc, name, paths) == Panicked <==>
            && MetadataStruct !in doc.unreadable && doc.configVersion < CURRENT
            && NeededStruct(doc) !in doc.unreadable
            && (|| doc.driver == Missing || doc.driver == There(Null)
                || (doc.configVersion == 1 && (doc.options.None? || doc.options.value.auth.None?)))
  {
  }

  /** Of the driver's own object a migration changes the store path and nothing else. */
  lemma DriverKeepsItsFields(doc: Document, name: string, paths: Paths)
    requires WellFormed(doc) && doc.configVersion <= CURRENT
    ensures var r := Migrate(doc, name, paths);
            && r.Loaded? && r.host.rawDriver.Some? && r.host.driver == Some(r.host.rawDriver)
            && r.host.rawDriver.value.Obj?
            && (forall f :: f != "StorePath" ==>
                 (f in r.host.rawDriver.value.fields <==> f in doc.driver.json.fields))
            && (forall f :: f in doc.driver.json.fields && f != "StorePath" ==>
                 r.host.rawDriver.value.fields[f] == doc.driver.json.fields[f])
            && (r.migrated ==>
                 && "StorePath" in r.host.rawDriver.value.fields
                 && r.host.rawDriver.value.fields["StorePath"] == Scalar(paths.Global(doc.storePath)))
            && (!r.migrated ==> r.host.rawDriver.value == doc.driver.json)
  {
  }

  /** Certificates and keys, as far as all versions have them. */
  datatype Credentials = Credentials(
    caCert: string, caKey: string, serverCert: string, serverKey: string, clientCert: string, clientKey: string)

  function CredentialsOf(a: Auth): Credentials {
    Credentials(a.caCertPath, a.caPrivateKeyPath, a.serverCertPath, a.serverKeyPath, a.clientCertPath, a.clientKeyPath)
  }

  /** Where a document of each version has them. */
  function StoredCredentials(doc: Document): Option<Credentials> {
    if doc.configVersion <= 0
    then Some(Credentials(doc.caCertPath, doc.privateKeyPath, doc.serverCertPath, doc.serverKeyPath,
                          doc.clientCertPath, doc.clientKeyPath))
    else if doc.options.None? || doc.options.value.auth.None? then None
    else
      var a := doc.options.value.auth.value;
      Some(Credentials(a.caCertPath, if doc.configVersion == 1 then a.privateKeyPath else a.caPrivateKeyPath,
                       a.serverCertPath, a.serverKeyPath, a.clientCertPath, a.clientKeyPath))
  }

  /** Every migration keeps the paths of certificates and keys, moving the CA key's to its new
      name; from version 0 it keeps the swarm settings, and from later ones all engine and
      swarm options. */
  lemma CredentialsAreKept(doc: Document, name: string, paths: Paths)
    requires WellFormed(doc) && doc.configVersion <= CURRENT
    ensures var r := Migrate(doc, name, paths);
            && r.Loaded?
            && StoredCredentials(doc) == (if r.host.options.None? || r.host.options.value.auth.None? then None
                                          else Some(CredentialsOf(r.host.options.value.auth.value)))
            && (doc.configVersion <= 0 ==>
                 && r.host.options.Some? && r.host.options.value.swarm.Some?
                 && (var s := r.host.options.value.swarm.value;
                     s.host == doc.swarmHost && s.master == doc.swarmMaster && s.discovery == doc.swarmDiscovery))
            && (doc.configVersion > 0 && doc.options.Some? ==>
                 && r.host.options.Some?
                 && r.host.options.value.engine == doc.options.value.engine
                 && r.host.options.value.swarm == doc.options.value.swarm)
  {
  }

  /** What a document of version 1 has besides: driver, memory and disk, and the remote paths; the
      store path becomes that of the whole store, and the certificates' directory is inside it. */
  lemma Version1KeepsTheRest(doc: Document, name: string, paths: Paths)
    requires WellFormed(doc) && doc.configVersion == 1
    ensures var r := Migrate(doc, name, paths);
            && r.Loaded? && r.host.name == name
            && r.host.options.Some? && r.host.options.value.auth.Some?
            && (var o, d := r.host.options.value, doc.options.value;
                o.driver == d.driver && o.memory == d.memory && o.disk == d.disk)
            && (var a, d := r.host.options.value.auth.value, doc.options.value.auth.value;
                && a.caCertRemotePath == d.caCertRemotePath && a.serverCertRemotePath == d.serverCertRemotePath
                && a.serverKeyRemotePath == d.serverKeyRemotePath && a.serverCertSANs == []
                && a.storePath == paths.dir(paths.dir(doc.storePath))
                && a.certDir == paths.join(paths.dir(paths.dir(doc.storePath)), "certs"))
  {
  }

  /** What a document of version 0 is given: an engine with TLS, no remote paths, and the paths of
      a store that it does not name. */
  lemma Version0IsCompleted(doc: Document, name: string, paths: Paths)
    requires WellFormed(doc) && doc.configVersion <= 0
    ensures var r := Migrate(doc, name, paths);
            && r.Loaded? && r.host.name == name
            && r.host.options.Some? && r.host.options.value.auth.Some?
            && (var o := r.host.options.value;
                && o.driver == "" && o.memory == 0 && o.disk == 0
                && o.engine == Some(Engine(true, "https://get.docker.com", Unset))
                && o.swarm == Some(Swarm("", doc.swarmDiscovery, doc.swarmHost, doc.swarmMaster, Unset)))
            && (var a := r.host.options.value.auth.value;
                && a.caCertRemotePath == a.serverCertRemotePath == a.serverKeyRemotePath == "" && a.serverCertSANs == []
                && a.storePath == paths.dir(paths.dir(""))
                && a.certDir == paths.join(paths.dir(paths.dir("")), "certs"))
  {
  }

  /** From version 2 on, all options are kept as they are. */
  lemma LaterVersionsKeepOptions(doc: Document, name: string, paths: Paths)
    requires WellFormed(doc) && 2 <= doc.configVersion <= CURRENT
    ensures var r := Migrate(doc, name, paths);
            && r.Loaded?
            && r.host.name == doc.name.GetOr(if doc.configVersion == 2 then "" else name)
            && (r.host.options.Some? <==> doc.options.Some?)
            && (doc.options.Some? ==>
                 var o, d := r.host.options.value, doc.options.value;
                 && o.driver == d.driver && o.memory == d.memory && o.disk == d.disk
                 && o.engine == d.engine && o.swarm == d.swarm
                 && (o.auth.Some? <==> d.auth.Some?)
                 && (d.auth.Some? ==> SameAuth(o.auth.value, d.auth.value)))
  {
  }

  predicate SameAuth(a: Auth, d: StoredAuth) {
    && a.certDir == d.certDir && a.storePath == d.storePath
    && a.caCertPath == d.caCertPath && a.caPrivateKeyPath == d.caPrivateKeyPath
    && a.caCertRemotePath == d.caCertRemotePath
    && a.serverCertPath == d.serverCertPath && a.serverKeyPath == d.serverKeyPath
    && a.serverCertRemotePath == d.serverCertRemotePath && a.serverKeyRemotePath == d.serverKeyRemotePath
    && a.clientCertPath == d.clientCertPath && a.clientKeyPath == d.clientKeyPath
    && a.serverCertSANs == d.serverCertSANs
  }

  /** A host that was loaded can be saved exactly if it was migrated or its document has a driver. */
  lemma LoadedCanBeSavedExactly(doc: Document, name: string, paths: Paths)
    requires Migrate(doc, name, paths).Loaded?
    ensures Written(Migrate(doc, name, paths).host).Some? <==> doc.configVersion < CURRENT || doc.driver.There?
  {
  }

  /** Once loaded, be it with a migration, and saved under its name, a host is read back without a
      further migration and is the same. */
  lemma MigrationIsStable(doc: Document, name: string, paths: Paths)
    requires Migrate(doc, name, paths).Loaded? && (doc.configVersion < CURRENT || doc.driver.There?)
    ensures var h := Migrate(doc, name, paths).host.(name := name);
            Written(h).Some? && Migrate(Written(h).value, name, paths) == Loaded(h, false)
  {
    var h := Migrate(doc, name, paths).host.(name := name);
    WrittenIsReadBack(h, name);
  }
}
