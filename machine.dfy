/** registerMachine (main.go): derive the host record once, then re-assert it
    under the machine key with the machine lease on every heartbeat. */
module Machine {
  import opened Outcomes
  import opened Keys
  import opened Etcd

  /** A value of the metadata document: a string, or anything else (kept opaque). */
  datatype Json = JString(text: string) | JOther(raw: string)

  /** The metadata document returned by the cloud metadata lookup. */
  type HostInfo = map<string, Json>

  /** The machine's name and the metadata registered for it. */
  datatype HostRecord = HostRecord(host: string, info: HostInfo)

  const PublicHostname: string := "publicHostname"

  /** When the lookup fails, the name comes from DOCKER_HOST and the record is
      just `{publicHostname: <that name>}`; otherwise the name is the document's
      publicHostname, which must be a string. */
  function DeriveHostRecord(lookup: Result<HostInfo>, dockerHost: string): (r: Result<HostRecord>)
    ensures r.Ok? ==> PublicHostname in r.value.info && r.value.info[PublicHostname] == JString(r.value.host)
    ensures lookup.Err? ==> r == Ok(HostRecord(dockerHost, map[PublicHostname := JString(dockerHost)]))
    ensures lookup.Ok? ==> (r.Ok? <==> PublicHostname in lookup.value && lookup.value[PublicHostname].JString?)
    ensures lookup.Ok? && r.Ok? ==> r.value.info == lookup.value
    ensures r.Err? ==> r.error == HostnameNotString
  {
    match lookup
    case Err(_) => Ok(HostRecord(dockerHost, map[PublicHostname := JString(dockerHost)]))
    case Ok(info) =>
      if PublicHostname in info && info[PublicHostname].JString? then Ok(HostRecord(info[PublicHostname].text, info))
      else Err(HostnameNotString)
  }

  /** One heartbeat: set the machine key to the encoded record with the machine lease. */
  function MachineHeartbeat(s: Store, refused: set<string>, host: string, data: string): Step
  {
    Put(s, refused, MachineKey(host), data, MachineTtl)
  }

  /** A heartbeat writes the machine key and leaves every container record of
      the machine as it was. */
  lemma HeartbeatKeepsContainerRecords(s: Store, refused: set<string>, host: string, data: string, id: string)
    ensures Agree(s, MachineHeartbeat(s, refused, host, data).store, ContainerKey(host, id))
    ensures MachineKey(host) !in refused ==> MachineHeartbeat(s, refused, host, data).store[MachineKey(host)] == Entry(data, MachineTtl)
  {
    MachineKeyIsNotAContainerKey(host, id);
  }

  /** When the lookup fails the heartbeat goes to the DOCKER_HOST name's key. */
  lemma FallbackHeartbeat(s: Store, refused: set<string>, cause: string, dockerHost: string, data: string)
    requires MachineKey(dockerHost) !in refused
    ensures var record := DeriveHostRecord(Err(MetadataFailure(cause)), dockerHost);
      && record.Ok? && record.value.host == dockerHost
      && MachineHeartbeat(s, refused, record.value.host, data) == Step(Pass, s[MachineKey(dockerHost) := Entry(data, MachineTtl)])
  {
  }

  /** One turn of the registerMachine loop; a failed write aborts the loop. */
  method RegisterMachineOnce(reg: Registry, host: string, data: string) returns (o: Outcome)
    modifies reg
    ensures Step(o, reg.entries) == MachineHeartbeat(old(reg.entries), reg.refused, host, data)
  {
    o := reg.Set(MachineKey(host), data, MachineTtl);
  }
}
