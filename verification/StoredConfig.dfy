/** The stored machine configuration as parsed JSON, and what the program's structs of the
    various versions read of it and write back. */
module StoredConfig {
  import opened Wrappers

  datatype Json = Null | Scalar(text: string) | Arr(elements: seq<Json>) | Obj(fields: map<string, Json>)

  /** The fields that play no part here, taken together; `Unset` if all have their zero value. */
  datatype Rest = Unset | Other(text: string)

  datatype Engine = Engine(tlsVerify: bool, installURL: string, rest: Rest)
  datatype Swarm = Swarm(address: string, discovery: string, host: string, master: bool, rest: Rest)

  datatype AuthV1 = AuthV1(
    storePath: string, caCertPath: string, caCertRemotePath: string, serverCertPath: string,
    serverKeyPath: string, clientKeyPath: string, serverCertRemotePath: string,
    serverKeyRemotePath: string, privateKeyPath: string, clientCertPath: string)

  datatype Auth = Auth(
    certDir: string, caCertPath: string, caPrivateKeyPath: string, caCertRemotePath: string,
    serverCertPath: string, serverKeyPath: string, clientKeyPath: string, serverCertRemotePath: string,
    serverKeyRemotePath: string, clientCertPath: string, serverCertSANs: seq<string>, storePath: string)

  datatype Options<A> = Options(
    driver: string, memory: int, disk: int, engine: Option<Engine>, swarm: Option<Swarm>, auth: Option<A>)

  /** The structs of the versions.  `driver` is the RawDataDriver that the reader puts there,
      holding what the document has; None if the document says null. */
  datatype V0 = V0(
    driverName: string, driver: Option<Option<Json>>, caCertPath: string, privateKeyPath: string,
    serverCertPath: string, serverKeyPath: string, clientCertPath: string, clientKeyPath: string,
    swarmHost: string, swarmMaster: bool, swarmDiscovery: string, storePath: string)
  datatype V1 = V1(
    configVersion: int, driverName: string, driver: Option<Option<Json>>,
    options: Option<Options<AuthV1>>, storePath: string)
  datatype V2 = V2(
    configVersion: int, driverName: string, driver: Option<Option<Json>>,
    options: Option<Options<Auth>>, name: string)
  datatype Host = Host(
    configVersion: int, driverName: string, driver: Option<Option<Json>>,
    options: Option<Options<Auth>>, name: string, rawDriver: Option<Json>)

  /** What a document has for "AuthOptions": every field that some version knows. */
  datatype StoredAuth = StoredAuth(
    certDir: string, caCertPath: string, caPrivateKeyPath: string, privateKeyPath: string,
    caCertRemotePath: string, serverCertPath: string, serverKeyPath: string, clientKeyPath: string,
    serverCertRemotePath: string, serverKeyRemotePath: string, clientCertPath: string,
    serverCertSANs: seq<string>, storePath: string)
  {
    function ToV1(): AuthV1 {
      AuthV1(storePath, caCertPath, caCertRemotePath, serverCertPath, serverKeyPath, clientKeyPath,
             serverCertRemotePath, serverKeyRemotePath, privateKeyPath, clientCertPath)
    }
    function ToCurrent(): Auth {
      Auth(certDir, caCertPath, caPrivateKeyPath, caCertRemotePath, serverCertPath, serverKeyPath, clientKeyPath,
           serverCertRemotePath, serverKeyRemotePath, clientCertPath, serverCertSANs, storePath)
    }
  }

  /** What a document has for "Driver". */
  datatype StoredDriver = Missing | There(json: Json)

  datatype Struct = MetadataStruct | V0Struct | V1Struct | V2Struct | HostStruct

  /** A stored document: every field that some version knows, with what is absent at its zero
      value, except that an absent name leaves the reader's own; and the structs that it cannot be
      read into, a field having another type. */
  datatype Document = Document(
    configVersion: int, driverName: string, driver: StoredDriver, name: Option<string>,
    options: Option<Options<StoredAuth>>,
    storePath: string, caCertPath: string, privateKeyPath: string, serverCertPath: string,
    serverKeyPath: string, clientCertPath: string, clientKeyPath: string,
    swarmHost: string, swarmMaster: bool, swarmDiscovery: string,
    unreadable: set<Struct>)
  {
    function DriverValue(): Option<Option<Json>> {
      match driver
      case Missing => Some(None)
      case There(j) => if j.Null? then None else Some(Some(j))
    }
    function OptionsV1(): Option<Options<AuthV1>> {
      if options.None? then None
      else
        var o := options.value;
        Some(Options(o.driver, o.memory, o.disk, o.engine, o.swarm,
                     if o.auth.None? then None else Some(o.auth.value.ToV1())))
    }
    function CurrentOptions(): Option<Options<Auth>> {
      if options.None? then None
      else
        var o := options.value;
        Some(Options(o.driver, o.memory, o.disk, o.engine, o.swarm,
                     if o.auth.None? then None else Some(o.auth.value.ToCurrent())))
    }

    function AsV0(): V0 {
      V0(driverName, DriverValue(), caCertPath, privateKeyPath, serverCertPath, serverKeyPath, clientCertPath,
         clientKeyPath, swarmHost, swarmMaster, swarmDiscovery, storePath)
    }
    function AsV1(): V1 { V1(configVersion, driverName, DriverValue(), OptionsV1(), storePath) }
    function AsV2(): V2 { V2(configVersion, driverName, DriverValue(), CurrentOptions(), name.GetOr("")) }

    /** Read into a host that has only this name yet. */
    function AsHost(given: string): Host {
      Host(configVersion, driverName, DriverValue(), CurrentOptions(), name.GetOr(given), None)
    }
  }

  /** json.Marshal of a host: its driver writes the raw data it holds, and fails without any. */
  function Written(h: Host): Option<Document> {
    if h.driver == Some(None) then None
    else
      Some(Document(
        h.configVersion, h.driverName, There(if h.driver.None? then Null else h.driver.value.value), Some(h.name),
        if h.options.None? then None else Some(WrittenOptions(h.options.value)),
        "", "", "", "", "", "", "", "", false, "", {}))
  }

  function WrittenOptions(o: Options<Auth>): Options<StoredAuth> {
    Options(o.driver, o.memory, o.disk, o.engine, o.swarm,
            if o.auth.None? then None else
              var a := o.auth.value;
              Some(StoredAuth(a.certDir, a.caCertPath, a.caPrivateKeyPath, "", a.caCertRemotePath, a.serverCertPath,
                              a.serverKeyPath, a.clientKeyPath, a.serverCertRemotePath, a.serverKeyRemotePath,
                              a.clientCertPath, a.serverCertSANs, a.storePath)))
  }

  /** A host that has been written is read back as it was, but for the field that repeats what its
      driver holds and is not written. */
  lemma WrittenIsReadBack(h: Host, given: string)
    requires Written(h).Some? && (h.driver.Some? && h.driver.value.Some? ==> !h.driver.value.value.Null?)
    ensures Written(h).value.AsHost(given) == h.(rawDriver := None)
    ensures Written(h).value.unreadable == {}
  {
    var doc := Written(h).value;
    if h.options.Some? && h.options.value.auth.Some? {
      assert doc.options.value.auth.value.ToCurrent() == h.options.value.auth.value;
    }
    assert doc.CurrentOptions() == h.options;
    match h.driver
    case None => assert doc.driver == There(Null);
    case Some(None) =>
    case Some(Some(j)) => assert doc.driver == There(j) && doc.DriverValue() == Some(Some(j));
  }
}
