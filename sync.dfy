/** The synchronizer's loops as methods that change a Registry object in
    place, each proved against the function of module Bridge that it runs. */
module Sync {
  import opened Outcomes
  import opened Keys
  import opened Etcd
  import opened Docker
  import Bridge

  /** registerInEtcd (main.go) against the registry object. */
  method RegisterInEtcd(reg: Registry, host: string, id: string, data: string) returns (o: Outcome)
    modifies reg
    ensures Step(o, reg.entries) == Bridge.RegisterInEtcd(old(reg.entries), reg.refused, host, id, data)
  {
    o := reg.Set(ContainerKey(host, id), data, ContainerTtl);
  }

  /** deregisterFromEtcd (main.go) against the registry object. */
  method DeregisterFromEtcd(reg: Registry, host: string, id: string) returns (o: Outcome)
    modifies reg
    ensures Step(o, reg.entries) == Bridge.DeregisterFromEtcd(old(reg.entries), reg.refused, host, id)
  {
    o := reg.Delete(ContainerKey(host, id));
  }

  /** registerContainer: fetch, then set on "start" and delete otherwise. */
  method RegisterContainer(reg: Registry, host: string, rt: Runtime, id: string, event: string) returns (o: Outcome)
    modifies reg
    ensures Step(o, reg.entries) == Bridge.RegisterContainer(old(reg.entries), Bridge.Env(host, rt, reg.refused), id, event)
  {
    var fetched := GetContainer(rt, id);
    if fetched.Err? {
      return Fail(fetched.error);
    }
    if event == Bridge.Start {
      o := RegisterInEtcd(reg, host, id, fetched.value);
    } else {
      o := DeregisterFromEtcd(reg, host, id);
    }
  }

  /** listenForNewContainers: apply each event of the stream in arrival order,
      dropping the error of each registration, until the stream ends. */
  method ListenForNewContainers(reg: Registry, host: string, rt: Runtime, sub: Subscription) returns (o: Outcome)
    modifies reg
    ensures Step(o, reg.entries) == Bridge.Listen(old(reg.entries), Bridge.Env(host, rt, reg.refused), sub)
  {
    if sub.SubscribeFailed? {
      return Fail(RuntimeFailure(sub.cause));
    }
    ghost var env := Bridge.Env(host, rt, reg.refused);
    var events := sub.stream.events;
    var i := 0;
    while i < |events|
      invariant 0 <= i <= |events|
      invariant reg.entries == Bridge.ApplyEvents(old(reg.entries), env, events[..i])
    {
      var e := events[i];
      if Bridge.Dispatched(e.status) {
        var ignored := RegisterContainer(reg, host, rt, e.id, e.status);
      }
      assert events[..i + 1][..i] == events[..i];
      i := i + 1;
    }
    assert events[..i] == events;
    match sub.stream.end
    case EndOfData => o := Pass;
    case Corrupt(cause) => o := Fail(DecodeFailure(cause));
  }

  /** One pass of registerContainers: list the running containers, then
      register each in list order, giving up at the first error. */
  method RegisterContainersPass(reg: Registry, host: string, rt: Runtime, listing: Listing) returns (o: Outcome)
    modifies reg
    ensures Step(o, reg.entries) == Bridge.ReconcilePass(old(reg.entries), Bridge.Env(host, rt, reg.refused), listing)
  {
    var listed := GetContainerIds(listing);
    if listed.Err? {
      return Fail(listed.error);
    }
    ghost var env := Bridge.Env(host, rt, reg.refused);
    var ids := listed.value;
    var i := 0;
    while i < |ids|
      invariant 0 <= i <= |ids|
      invariant Bridge.Reconcile(old(reg.entries), env, ids[..i]) == Step(Pass, reg.entries)
    {
      var stepped := RegisterContainer(reg, host, rt, ids[i], Bridge.Start);
      assert ids[..i + 1][..i] == ids[..i];
      if stepped.Fail? {
        Bridge.ReconcileStopsAtFirstFailure(old(reg.entries), env, ids, i);
        return stepped;
      }
      i := i + 1;
    }
    assert ids[..i] == ids;
    o := Pass;
  }
}
