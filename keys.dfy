/** The registry key layout and the lease constants of main.go. */
module Keys {

  /** Lease of a container record, in seconds. */
  const ContainerTtl: int := 60
  /** Lease of the machine record, in seconds. */
  const MachineTtl: int := 600
  /** How much earlier than its expiry a lease is re-asserted. */
  const SafetyMargin: int := 10

  /** The key under which container `id` of machine `host` is registered. */
  function ContainerKey(host: string, id: string): string
  {
    "/docker/machines/" + host + "/containers/" + id
  }

  /** The key under which the machine record of `host` is registered. */
  function MachineKey(host: string): string
  {
    "/docker/machines/" + host + "/awsinfo"
  }

  /** The pause between two assertions of a lease of length `ttl`. */
  function ReassertInterval(ttl: int): (pause: int)
    requires ttl > SafetyMargin
    ensures 0 < pause < ttl
    ensures ttl - pause == SafetyMargin
  {
    ttl - SafetyMargin
  }

  /** Both loops sleep strictly less than the lease they renew. */
  lemma ReassertIntervals()
    ensures ReassertInterval(ContainerTtl) == 50 < ContainerTtl
    ensures ReassertInterval(MachineTtl) == 590 < MachineTtl
  {
  }

  /** Within one machine, distinct container ids have distinct keys. */
  lemma ContainerKeyInjective(host: string, a: string, b: string)
    ensures ContainerKey(host, a) == ContainerKey(host, b) <==> a == b
  {
    var prefix := "/docker/machines/" + host + "/containers/";
    assert ContainerKey(host, a) == prefix + a;
    assert ContainerKey(host, b) == prefix + b;
    if ContainerKey(host, a) == ContainerKey(host, b) {
      assert a == (prefix + a)[|prefix|..];
      assert b == (prefix + b)[|prefix|..];
    }
  }

  /** The machine record never shares a key with a container of the same machine. */
  lemma MachineKeyIsNotAContainerKey(host: string, id: string)
    ensures MachineKey(host) != ContainerKey(host, id)
  {
    assert |MachineKey(host)| == |host| + 25;
    assert |ContainerKey(host, id)| == |host| + 29 + |id|;
  }
}
