/** The registration synchronizer of main.go as functions over registry
    contents: registerInEtcd, deregisterFromEtcd, registerContainer, the
    event applier of listenForNewContainers and one reconcile pass of
    registerContainers. The methods of module Sync are proved against these. */
module Bridge {
  import opened Outcomes
  import opened Keys
  import opened Etcd
  import opened Docker

  /** Everything the synchronizer reads besides the registry contents. */
  datatype Env = Env(host: string, runtime: Runtime, refused: set<string>)

  const Start: string := "start"
  const Stop: string := "stop"

  /** registerInEtcd: set the container's key to its descriptor with the container lease. */
  function RegisterInEtcd(s: Store, refused: set<string>, host: string, id: string, data: string): Step
  {
    Put(s, refused, ContainerKey(host, id), data, ContainerTtl)
  }

  /** deregisterFromEtcd: delete the container's key. */
  function DeregisterFromEtcd(s: Store, refused: set<string>, host: string, id: string): Step
  {
    Remove(s, refused, ContainerKey(host, id))
  }

  /** registerContainer: fetch the descriptor first; on an error return it and
      write nothing; otherwise register on "start" and deregister on anything else. */
  function RegisterContainer(s: Store, env: Env, id: string, event: string): Step
  {
    match GetContainer(env.runtime, id)
    case Err(e) => Step(Fail(e), s)
    case Ok(data) =>
      if event == Start then RegisterInEtcd(s, env.refused, env.host, id, data)
      else DeregisterFromEtcd(s, env.refused, env.host, id)
  }

  /** The event loop hands an event on only for these two statuses. */
  predicate Dispatched(status: string)
  {
    status == Start || status == Stop
  }

  /** One turn of the event loop; the returned error is dropped. */
  function ApplyEvent(s: Store, env: Env, e: Event): Store
  {
    if Dispatched(e.status) then RegisterContainer(s, env, e.id, e.status).store else s
  }

  /** The registry after the event loop has consumed `events` in order. */
  function ApplyEvents(s: Store, env: Env, events: seq<Event>): Store
    decreases |events|
  {
    if events == [] then s
    else ApplyEvent(ApplyEvents(s, env, events[..|events| - 1]), env, events[|events| - 1])
  }

  /** listenForNewContainers: a failed subscription is fatal before any event;
      otherwise every event is applied, and the stream's end decides the outcome. */
  function Listen(s: Store, env: Env, sub: Subscription): Step
  {
    match sub
    case SubscribeFailed(cause) => Step(Fail(RuntimeFailure(cause)), s)
    case Subscribed(stream) =>
      var t := ApplyEvents(s, env, stream.events);
      match stream.end
      case EndOfData => Step(Pass, t)
      case Corrupt(cause) => Step(Fail(DecodeFailure(cause)), t)
  }

  /** The inner loop of one registerContainers pass over `ids`: register each
      with "start", in list order, and stop at the first error. */
  function Reconcile(s: Store, env: Env, ids: seq<string>): Step
    decreases |ids|
  {
    if ids == [] then Step(Pass, s)
    else
      var before := Reconcile(s, env, ids[..|ids| - 1]);
      if before.outcome.Fail? then before
      else RegisterContainer(before.store, env, ids[|ids| - 1], Start)
  }

  /** One full pass: list the running containers (an error is fatal) and reconcile them. */
  function ReconcilePass(s: Store, env: Env, listing: Listing): Step
  {
    match GetContainerIds(listing)
    case Err(e) => Step(Fail(e), s)
    case Ok(ids) => Reconcile(s, env, ids)
  }

  // ---------------------------------------------------------------------
  // One registration

  /** registerInEtcd writes the descriptor with the container lease under the
      container's key, and no other key. */
  lemma RegisterInEtcdEffect(s: Store, refused: set<string>, host: string, id: string, data: string)
    ensures var r := RegisterInEtcd(s, refused, host, id, data);
      && (r.outcome.Pass? <==> ContainerKey(host, id) !in refused)
      && (r.outcome.Fail? ==> r.store == s)
      && (r.outcome.Pass? ==> r.store == s[ContainerKey(host, id) := Entry(data, ContainerTtl)])
  {
  }

  /** deregisterFromEtcd removes the container's key, and no other key. */
  lemma DeregisterFromEtcdEffect(s: Store, refused: set<string>, host: string, id: string)
    ensures var r := DeregisterFromEtcd(s, refused, host, id);
      && (r.outcome.Pass? <==> ContainerKey(host, id) !in refused)
      && (r.outcome.Fail? ==> r.store == s)
      && (r.outcome.Pass? ==> r.store == s - {ContainerKey(host, id)})
  {
  }

  /** Registering twice is registering once; so is deregistering. */
  lemma RegistrationIdempotent(s: Store, refused: set<string>, host: string, id: string, data: string)
    ensures var once := RegisterInEtcd(s, refused, host, id, data);
      RegisterInEtcd(once.store, refused, host, id, data) == once
    ensures var once := DeregisterFromEtcd(s, refused, host, id);
      DeregisterFromEtcd(once.store, refused, host, id) == once
  {
    PutIdempotent(s, refused, ContainerKey(host, id), data, ContainerTtl);
    RemoveIdempotent(s, refused, ContainerKey(host, id));
  }

  /** Deregistration addresses the key registration wrote: it undoes it when
      the container was not registered before. */
  lemma DeregisterUndoesRegister(s: Store, refused: set<string>, host: string, id: string, data: string)
    requires ContainerKey(host, id) !in s && ContainerKey(host, id) !in refused
    ensures DeregisterFromEtcd(RegisterInEtcd(s, refused, host, id, data).store, refused, host, id) == Step(Pass, s)
  {
    RemoveUndoesPut(s, refused, ContainerKey(host, id), data, ContainerTtl);
  }

  /** What registerContainer does: a fetch error is returned and nothing is written,
      whatever the event; otherwise only the container's own key is touched. */
  lemma RegisterContainerEffect(s: Store, env: Env, id: string, event: string)
    ensures var r := RegisterContainer(s, env, id, event);
      var fetched := GetContainer(env.runtime, id);
      && (fetched.Err? ==> r == Step(Fail(fetched.error), s))
      && (r.outcome.Pass? <==> fetched.Ok? && ContainerKey(env.host, id) !in env.refused)
      && (r.outcome.Fail? ==> r.store == s)
      && (r.outcome.Pass? && event == Start ==>
            r.store == s[ContainerKey(env.host, id) := Entry(fetched.value, ContainerTtl)])
      && (r.outcome.Pass? && event != Start ==> r.store == s - {ContainerKey(env.host, id)})
      && (forall k :: k != ContainerKey(env.host, id) ==> Agree(s, r.store, k))
  {
  }

  /** A "start" for a container whose descriptor request gets a non-200 reply
      registers an empty descriptor instead of failing. */
  lemma NonOkStartRegistersEmpty(s: Store, env: Env, id: string)
    requires ContainerKey(env.host, id) !in env.refused
    requires Fetch(env.runtime, id).Reply? && Fetch(env.runtime, id).status != StatusOK
    ensures RegisterContainer(s, env, id, Start)
         == Step(Pass, s[ContainerKey(env.host, id) := Entry("", ContainerTtl)])
  {
    NonOkStatusIsEmptyDescriptor(env.runtime, id);
  }

  /** A "stop" for a container that was never registered deletes nothing and
      reports no error, provided its descriptor can be fetched. */
  lemma StopOfUnregisteredIsNoOp(s: Store, env: Env, id: string)
    requires ContainerKey(env.host, id) !in env.refused && GetContainer(env.runtime, id).Ok?
    requires ContainerKey(env.host, id) !in s
    ensures RegisterContainer(s, env, id, Stop) == Step(Pass, s)
  {
    RemoveAbsentIsNoOp(s, env.refused, ContainerKey(env.host, id));
  }

  /** Whether two registries agree at `k` is kept by one more event. */
  lemma ApplyEventKeepsAgreement(s: Store, t: Store, env: Env, e: Event, k: string)
    requires Agree(s, t, k)
    ensures Agree(ApplyEvent(s, env, e), ApplyEvent(t, env, e), k)
  {
    if Dispatched(e.status) {
      RegisterContainerEffect(s, env, e.id, e.status);
      RegisterContainerEffect(t, env, e.id, e.status);
    }
  }

  // ---------------------------------------------------------------------
  // The event loop

  /** Consuming `a` and then `b` is consuming `a + b`: the loop keeps no state
      of its own beyond the registry. */
  lemma {:induction false} ApplyEventsAppend(s: Store, env: Env, a: seq<Event>, b: seq<Event>)
    ensures ApplyEvents(s, env, a + b) == ApplyEvents(ApplyEvents(s, env, a), env, b)
    decreases |b|
  {
    if b == [] {
      assert a + b == a;
    } else {
      var front := b[..|b| - 1];
      assert (a + b)[..|a + b| - 1] == a + front;
      assert (a + b)[|a + b| - 1] == b[|b| - 1];
      ApplyEventsAppend(s, env, a, front);
    }
  }

  /** Only keys of containers named by some event can change. In particular
      the machine record and every other container's record are left alone. */
  lemma {:induction false} ApplyEventsFrame(s: Store, env: Env, events: seq<Event>, k: string)
    requires forall i :: 0 <= i < |events| ==> k != ContainerKey(env.host, events[i].id)
    ensures Agree(s, ApplyEvents(s, env, events), k)
    decreases |events|
  {
    if events != [] {
      var front := events[..|events| - 1];
      var last := events[|events| - 1];
      ApplyEventsFrame(s, env, front, k);
      var before := ApplyEvents(s, env, front);
      if Dispatched(last.status) {
        RegisterContainerEffect(before, env, last.id, last.status);
      }
    }
  }

  /** Events whose status is neither "start" nor "stop" change nothing. */
  lemma {:induction false} IgnoredEventsChangeNothing(s: Store, env: Env, events: seq<Event>)
    requires forall i :: 0 <= i < |events| ==> !Dispatched(events[i].status)
    ensures ApplyEvents(s, env, events) == s
    decreases |events|
  {
    if events != [] {
      IgnoredEventsChangeNothing(s, env, events[..|events| - 1]);
    }
  }

  /** A repeated event is a no-op: a second "start" rewrites the same record,
      a second "stop" deletes an absent key. */
  lemma RepeatedEventIsNoOp(s: Store, env: Env, e: Event)
    ensures ApplyEvents(s, env, [e, e]) == ApplyEvents(s, env, [e])
  {
    assert [e, e][..1] == [e];
    assert [e][..0] == [];
    if Dispatched(e.status) {
      var once := RegisterContainer(s, env, e.id, e.status);
      RegisterContainerEffect(s, env, e.id, e.status);
      RegisterContainerEffect(once.store, env, e.id, e.status);
    }
  }

  /** The events about `id`, in their original order. */
  function EventsFor(events: seq<Event>, id: string): (r: seq<Event>)
    ensures forall i :: 0 <= i < |r| ==> r[i].id == id
    ensures |r| <= |events|
    decreases |events|
  {
    if events == [] then []
    else
      var front := EventsFor(events[..|events| - 1], id);
      if events[|events| - 1].id == id then front + [events[|events| - 1]] else front
  }

  /** A container's record after the event loop depends only on the events
      about that container: events for other ids are irrelevant to it. */
  lemma {:induction false} OnlyOwnEventsMatter(s: Store, env: Env, events: seq<Event>, id: string)
    ensures Agree(ApplyEvents(s, env, events), ApplyEvents(s, env, EventsFor(events, id)), ContainerKey(env.host, id))
    decreases |events|
  {
    var k := ContainerKey(env.host, id);
    if events != [] {
      var front := events[..|events| - 1];
      var last := events[|events| - 1];
      OnlyOwnEventsMatter(s, env, front, id);
      var own := EventsFor(front, id);
      if last.id == id {
        assert (own + [last])[..|own + [last]| - 1] == own;
        ApplyEventKeepsAgreement(ApplyEvents(s, env, front), ApplyEvents(s, env, own), env, last, k);
      } else {
        ContainerKeyInjective(env.host, last.id, id);
        assert ApplyEvents(s, env, [last]) == ApplyEvent(s, env, last) by {
          assert [last][..0] == [];
        }
        ApplyEventsFrame(ApplyEvents(s, env, front), env, [last], k);
        ApplyEventsAppend(s, env, front, [last]);
        assert front + [last] == events;
        assert ApplyEvents(ApplyEvents(s, env, front), env, [last]) == ApplyEvent(ApplyEvents(s, env, front), env, last) by {
          assert [last][..0] == [];
        }
      }
    }
  }

  /** Events are applied in arrival order: after start A, start B, stop A,
      with both descriptors fetchable, B is registered and A is not. */
  lemma EventOrderExample(s: Store, env: Env, a: string, b: string)
    requires a != b
    requires ContainerKey(env.host, a) !in env.refused && ContainerKey(env.host, b) !in env.refused
    requires GetContainer(env.runtime, a).Ok? && GetContainer(env.runtime, b).Ok?
    ensures var t := ApplyEvents(s, env, [Event(a, Start), Event(b, Start), Event(a, Stop)]);
      && ContainerKey(env.host, b) in t
      && t[ContainerKey(env.host, b)] == Entry(GetContainer(env.runtime, b).value, ContainerTtl)
      && ContainerKey(env.host, a) !in t
  {
    var events := [Event(a, Start), Event(b, Start), Event(a, Stop)];
    assert events[..2] == [Event(a, Start), Event(b, Start)];
    assert events[..2][..1] == [Event(a, Start)];
    assert events[..2][..1][..0] == [];
    ContainerKeyInjective(env.host, a, b);
    var s1 := RegisterContainer(s, env, a, Start).store;
    var s2 := RegisterContainer(s1, env, b, Start).store;
    RegisterContainerEffect(s, env, a, Start);
    RegisterContainerEffect(s1, env, b, Start);
    RegisterContainerEffect(s2, env, a, Stop);
  }

  /** A clean end of the stream is a normal end of the loop, and a corrupt
      payload is fatal; either way every event before it has been applied. */
  lemma ListenOutcome(s: Store, env: Env, stream: EventStream)
    ensures Listen(s, env, Subscribed(stream)).store == ApplyEvents(s, env, stream.events)
    ensures Listen(s, env, Subscribed(stream)).outcome.Pass? <==> stream.end.EndOfData?
  {
  }

  // ---------------------------------------------------------------------
  // The reconcile pass

  /** A pass succeeds exactly when every listed descriptor can be fetched and
      etcd accepts the write of every listed container's key. */
  lemma {:induction false} ReconcileSucceedsIff(s: Store, env: Env, ids: seq<string>)
    ensures Reconcile(s, env, ids).outcome.Pass?
        <==> forall i :: 0 <= i < |ids| ==>
               GetContainer(env.runtime, ids[i]).Ok? && ContainerKey(env.host, ids[i]) !in env.refused
    decreases |ids|
  {
    if ids != [] {
      var front := ids[..|ids| - 1];
      ReconcileSucceedsIff(s, env, front);
      var before := Reconcile(s, env, front);
      if before.outcome.Pass? {
        RegisterContainerEffect(before.store, env, ids[|ids| - 1], Start);
      }
      assert forall i :: 0 <= i < |front| ==> front[i] == ids[i];
    }
  }

  /** A pass aborts at the first failing id: the error is that id's error and
      the registry is as the ids before it left it, so no later id is written. */
  lemma {:induction false} ReconcileStopsAtFirstFailure(s: Store, env: Env, ids: seq<string>, k: nat)
    requires k < |ids|
    requires Reconcile(s, env, ids[..k]).outcome.Pass?
    requires RegisterContainer(Reconcile(s, env, ids[..k]).store, env, ids[k], Start).outcome.Fail?
    ensures Reconcile(s, env, ids)
         == Step(RegisterContainer(Reconcile(s, env, ids[..k]).store, env, ids[k], Start).outcome,
                 Reconcile(s, env, ids[..k]).store)
    decreases |ids|
  {
    var before := Reconcile(s, env, ids[..k]);
    RegisterContainerEffect(before.store, env, ids[k], Start);
    if |ids| == k + 1 {
      assert ids[..|ids| - 1] == ids[..k];
    } else {
      var front := ids[..|ids| - 1];
      assert front[..k] == ids[..k];
      assert front[k] == ids[k];
      ReconcileStopsAtFirstFailure(s, env, front, k);
    }
  }

  /** Self-healing: after a pass that succeeds, every listed container is
      registered with its freshly fetched descriptor and the container lease,
      whatever the registry held before. */
  lemma {:induction false} ReconcileHeals(s: Store, env: Env, ids: seq<string>, id: string)
    requires Reconcile(s, env, ids).outcome.Pass?
    requires id in ids
    ensures GetContainer(env.runtime, id).Ok?
    ensures ContainerKey(env.host, id) in Reconcile(s, env, ids).store
    ensures Reconcile(s, env, ids).store[ContainerKey(env.host, id)]
         == Entry(GetContainer(env.runtime, id).value, ContainerTtl)
    decreases |ids|
  {
    var front := ids[..|ids| - 1];
    var last := ids[|ids| - 1];
    var before := Reconcile(s, env, front);
    assert before.outcome.Pass?;
    RegisterContainerEffect(before.store, env, last, Start);
    if id != last {
      assert id in front by {
        var i :| 0 <= i < |ids| && ids[i] == id;
        assert i < |ids| - 1;
        assert front[i] == id;
      }
      ReconcileHeals(s, env, front, id);
      ContainerKeyInjective(env.host, id, last);
    } else {
      assert GetContainer(env.runtime, id).Ok? by {
        RegisterContainerEffect(before.store, env, id, Start);
      }
    }
  }

  /** A pass only writes the keys of the listed containers. */
  lemma {:induction false} ReconcileFrame(s: Store, env: Env, ids: seq<string>, k: string)
    requires forall i :: 0 <= i < |ids| ==> k != ContainerKey(env.host, ids[i])
    ensures Agree(s, Reconcile(s, env, ids).store, k)
    decreases |ids|
  {
    if ids != [] {
      var front := ids[..|ids| - 1];
      ReconcileFrame(s, env, front, k);
      var before := Reconcile(s, env, front);
      if before.outcome.Pass? {
        RegisterContainerEffect(before.store, env, ids[|ids| - 1], Start);
      }
    }
  }

  /** A pass never deletes: entries of containers that are gone are left for
      their lease to expire. */
  lemma {:induction false} ReconcileNeverDeletes(s: Store, env: Env, ids: seq<string>, k: string)
    requires k in s
    ensures k in Reconcile(s, env, ids).store
    decreases |ids|
  {
    if ids != [] {
      var front := ids[..|ids| - 1];
      ReconcileNeverDeletes(s, env, front, k);
      var before := Reconcile(s, env, front);
      if before.outcome.Pass? {
        RegisterContainerEffect(before.store, env, ids[|ids| - 1], Start);
      }
    }
  }

  /** Listing c1 and c2 where c2's descriptor cannot be fetched: c1 is
      registered, the pass fails with c2's error, and no empty record is
      written for c2. */
  lemma ReconcileScenario(s: Store, env: Env, c1: string, c2: string)
    requires c1 != c2 && ContainerKey(env.host, c1) !in env.refused
    requires GetContainer(env.runtime, c1).Ok? && GetContainer(env.runtime, c2).Err?
    requires ContainerKey(env.host, c2) !in s
    ensures var r := Reconcile(s, env, [c1, c2]);
      && r.outcome == Fail(GetContainer(env.runtime, c2).error)
      && ContainerKey(env.host, c1) in r.store
      && r.store[ContainerKey(env.host, c1)] == Entry(GetContainer(env.runtime, c1).value, ContainerTtl)
      && ContainerKey(env.host, c2) !in r.store
  {
    assert [c1, c2][..1] == [c1];
    assert [c1][..0] == [];
    ContainerKeyInjective(env.host, c1, c2);
    var first := RegisterContainer(s, env, c1, Start);
    RegisterContainerEffect(s, env, c1, Start);
    assert Reconcile(s, env, [c1]) == first;
    RegisterContainerEffect(first.store, env, c2, Start);
    assert Reconcile(s, env, [c1, c2]) == RegisterContainer(first.store, env, c2, Start);
  }

  /** Listing c1 and c2 where both descriptors can be fetched but etcd refuses
      c2's key: c1 is written, the pass fails with etcd's error, and c2's key
      keeps whatever it held before. */
  lemma ReconcileRefusedScenario(s: Store, env: Env, c1: string, c2: string)
    requires c1 != c2
    requires GetContainer(env.runtime, c1).Ok? && GetContainer(env.runtime, c2).Ok?
    requires ContainerKey(env.host, c1) !in env.refused && ContainerKey(env.host, c2) in env.refused
    ensures var r := Reconcile(s, env, [c1, c2]);
      && r.outcome == Fail(RegistryFailure)
      && ContainerKey(env.host, c1) in r.store
      && r.store[ContainerKey(env.host, c1)] == Entry(GetContainer(env.runtime, c1).value, ContainerTtl)
      && Agree(s, r.store, ContainerKey(env.host, c2))
  {
    assert [c1, c2][..1] == [c1];
    assert [c1][..0] == [];
    ContainerKeyInjective(env.host, c1, c2);
    var first := RegisterContainer(s, env, c1, Start);
    RegisterContainerEffect(s, env, c1, Start);
    assert Reconcile(s, env, [c1]) == first;
    RegisterContainerEffect(first.store, env, c2, Start);
    assert Reconcile(s, env, [c1, c2]) == RegisterContainer(first.store, env, c2, Start);
  }

  /** A pass whose listing fails (unrefused daemon, undecodable list) writes
      nothing; a non-200 listing is an empty, successful pass. */
  lemma ReconcilePassListing(s: Store, env: Env, listing: Listing)
    ensures GetContainerIds(listing).Err? ==> ReconcilePass(s, env, listing) == Step(Fail(GetContainerIds(listing).error), s)
    ensures listing.Listed? && listing.status != StatusOK ==> ReconcilePass(s, env, listing) == Step(Pass, s)
  {
  }
}
