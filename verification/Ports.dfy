/** Ports written as "port/protocol". */
module Ports {
  import opened Text

  /** SplitPortProto: the protocol defaults to tcp. */
  function Split(raw: string): (r: (string, string))
    ensures '/' !in r.0
  {
    (Before(raw, '/'), if '/' in raw then After(raw, '/') else "tcp")
  }

  function Key(port: string, proto: string): string { port + "/" + proto }

  /** The key that a port is looked up under. */
  function KeyOf(raw: string): string { Key(Split(raw).0, Split(raw).1) }

  /** A port without a slash and its protocol can be told from their key. */
  lemma KeyIsSplit(port: string, proto: string)
    requires '/' !in port
    ensures Split(Key(port, proto)) == (port, proto)
  {
    assert Key(port, proto) == port + ("/" + proto);
    BeforeConcat(port, "/" + proto, '/');
    assert Key(port, proto)[|port|] == '/';
  }

  lemma KeyIsInjective(port: string, proto: string, port': string, proto': string)
    requires '/' !in port && '/' !in port' && Key(port, proto) == Key(port', proto')
    ensures port == port' && proto == proto'
  {
    KeyIsSplit(port, proto);
    KeyIsSplit(port', proto');
  }
}
