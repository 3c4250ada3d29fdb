# docker-etcd-bridge: the registration synchronizer, modelled in Dafny

docker-etcd-bridge keeps an etcd registry in step with the containers running
on a Docker host. Every container gets a record under
`/docker/machines/<host>/containers/<id>` with a 60-second lease. The machine
gets a record under `/docker/machines/<host>/awsinfo` with a 600-second lease.
Three loops keep these records current:

- a heartbeat re-asserts the machine record;
- a reconcile pass re-registers every running container;
- an event applier registers a container on a `start` event and deregisters it on a `stop` event.

This project models that synchronizer. etcd becomes a map from key to
`(value, ttl)`. The Docker daemon becomes a map from container id to the reply
its API would give. In the model:

- `Outcomes`: the errors of `main.go`. A `log.Panic` becomes a `Fail` result of the loop that would panic.
- `Keys`: the key layout, the two lease constants (`ContainerTtl`, `MachineTtl`) and the re-assertion interval `ttl - 10`.
- `Etcd`: the registry contents (`Store`), set (`Put`) and recursive delete (`Remove`) as functions, and the `Registry` class. The class holds the contents in a `map` field, and its `Set` and `Delete` methods update that field in place.
- `Docker`: the replies of the Docker API as values. `GetContainer` and `GetContainerIds` show how `main.go` reads those replies.
- `Bridge`: the synchronizer as functions on registry contents. `RegisterInEtcd`, `DeregisterFromEtcd` and `RegisterContainer` mirror the Go functions of the same names. `ApplyEvents` is the event loop, `Listen` is `listenForNewContainers`, `Reconcile` is the inner loop of one `registerContainers` pass, and `ReconcilePass` is the whole pass. The lemmas about these functions are where the properties are proved.
- `Sync`: the same operations as methods that change a `Registry` object step by step, with `while` loops. Each method is proved equal to its `Bridge` function.
- `Machine`: how the host record is derived, including the fallback to `DOCKER_HOST`, and one heartbeat.

The host name and all external state are explicit parameters. `Bridge.Env`
groups the host name, the Docker runtime and the set of keys etcd refuses to write or delete.

## Model

| member | source | states |
|---|---|---|
| `Keys.ReassertInterval` | main.go:91 | The pause before renewing a lease is positive, strictly shorter than the lease, and exactly the 10-second margin short of it. |
| `Keys.ReassertIntervals` | main.go:73 | The container loop sleeps 50 s against a 60 s lease, and the machine loop sleeps 590 s against a 600 s lease. |
| `Keys.ContainerKeyInjective` | main.go:179 | On one machine, two container keys are equal exactly when the ids are equal. |
| `Keys.MachineKeyIsNotAContainerKey` | main.go:67 | The machine record's key differs from every container key of the same machine. |
| `Etcd.Put` | main.go:180 | A set succeeds exactly when etcd does not refuse the key. On success the key holds the value and ttl. On failure nothing changes. Every other key is unchanged. |
| `Etcd.Remove` | main.go:187 | A delete succeeds exactly when etcd does not refuse the key. On success the key is absent. On failure nothing changes. Every other key is unchanged. |
| `Etcd.PutIdempotent` | main.go:180 | Doing the same set twice gives the same result and contents as doing it once. |
| `Etcd.RemoveIdempotent` | main.go:187 | Doing the same delete twice gives the same result and contents as doing it once. |
| `Etcd.RemoveAbsentIsNoOp` | main.go:187 | Deleting an absent key that etcd does not refuse succeeds and leaves the registry unchanged. |
| `Etcd.RemoveUndoesPut` | main.go:180-187 | For a key etcd does not refuse, a delete after a set of that key succeeds and leaves the original contents minus that key. |
| `Etcd.Registry.Set` | main.go:180 | The object's contents and error result are exactly what `Put` gives for the old contents. |
| `Etcd.Registry.Delete` | main.go:187 | The object's contents and error result are exactly what `Remove` gives for the old contents. |
| `Docker.GetContainer` | main.go:159-175 | A descriptor fetch fails exactly when the daemon is unreachable or a 200 body cannot be read. Any other status is a success. |
| `Docker.NonOkStatusIsEmptyDescriptor` | main.go:167-174 | A reply other than 200 gives an empty descriptor and no error, which is Go's `(nil, nil)`. |
| `Docker.OkStatusIsBody` | main.go:167-172 | A complete 200 reply gives exactly its body. |
| `Docker.GetContainerIds` | main.go:96-114 | Listing fails exactly when the daemon is unreachable or a 200 list does not decode. A 200 list that decodes gives exactly the decoded ids, in order. A reply other than 200 gives an empty list and no error. |
| `Bridge.RegisterInEtcdEffect` | main.go:177-182 | Registering succeeds exactly when etcd does not refuse the container's key. Success sets that key to the descriptor with the 60 s lease. On failure nothing is written. |
| `Bridge.DeregisterFromEtcdEffect` | main.go:184-189 | Deregistering succeeds exactly when etcd does not refuse the container's key. Success removes that key. On failure nothing is written. |
| `Bridge.RegistrationIdempotent` | main.go:177-189 | Registering twice is the same as registering once. Deregistering twice is the same as deregistering once. |
| `Bridge.DeregisterUndoesRegister` | main.go:177-189 | When the key was absent and etcd does not refuse it, deregistering after registering the same id gives back the original registry, so both functions use the same key. |
| `Bridge.RegisterContainerEffect` | main.go:141-157 | A fetch error is returned and nothing is written, for `stop` events too. A success happens exactly when the fetch succeeds and etcd does not refuse the container's key. On success, `start` sets the key and anything else deletes it. No other key ever changes. |
| `Bridge.NonOkStartRegistersEmpty` | main.go:142-149 | A `start` whose descriptor request gets a reply other than 200 writes an empty descriptor and does not fail. |
| `Bridge.StopOfUnregisteredIsNoOp` | main.go:151-155 | A `stop` for a container that was never registered succeeds and leaves the registry unchanged. |
| `Bridge.ApplyEventsAppend` | main.go:124-138 | Applying events `a` then events `b` is the same as applying `a + b`. The loop keeps no state besides the registry. |
| `Bridge.ApplyEventsFrame` | main.go:135-137 | A key that is not the key of any event's container is unchanged by the event loop. |
| `Bridge.IgnoredEventsChangeNothing` | main.go:135-137 | Events whose status is neither `start` nor `stop` leave the registry exactly as it was. |
| `Bridge.RepeatedEventIsNoOp` | main.go:135-137 | Applying an event twice in a row gives the same registry as applying it once, whatever its status. |
| `Bridge.OnlyOwnEventsMatter` | main.go:125-138 | A container's record after the loop is the same as when only that container's events are applied, in their original order. |
| `Bridge.EventOrderExample` | main.go:125-138 | With both descriptors fetchable, `[start A, start B, stop A]` ends with B's descriptor registered and A's key absent. |
| `Bridge.ListenOutcome` | main.go:125-133 | Every decoded event is applied. The loop ends normally exactly when the stream ends with EOF. |
| `Bridge.ReconcileSucceedsIff` | main.go:85-90 | A pass succeeds exactly when every listed descriptor can be fetched and etcd refuses none of the listed containers' keys. |
| `Bridge.ReconcileStopsAtFirstFailure` | main.go:85-90 | When the first failure is at index k, the pass returns that id's error and leaves the registry as ids[..k] left it. No later id is written. |
| `Bridge.ReconcileHeals` | main.go:85-90 | After a successful pass, every listed container is registered with its freshly fetched descriptor and the 60 s lease, whatever the registry held before. |
| `Bridge.ReconcileFrame` | main.go:85-90 | A key that is not the key of a listed container is unchanged by a pass. |
| `Bridge.ReconcileNeverDeletes` | main.go:85-90 | A pass never removes a key. |
| `Bridge.ReconcileScenario` | main.go:85-90 | Listing c1 and c2 where c2's fetch fails registers c1, fails with c2's error, and writes no record for c2. |
| `Bridge.ReconcileRefusedScenario` | main.go:85-90 | Listing c1 and c2 where both fetches succeed but etcd refuses c2's key registers c1, fails with etcd's error, and leaves c2's key as it was. |
| `Bridge.ReconcilePassListing` | main.go:81-84 | A failed listing aborts the pass before anything is written. A listing reply other than 200 is an empty pass that succeeds. |
| `Sync.RegisterInEtcd` | main.go:177-182 | The registry object ends as `Bridge.RegisterInEtcd` of its old contents, and the method returns that function's error. |
| `Sync.DeregisterFromEtcd` | main.go:184-189 | The registry object ends as `Bridge.DeregisterFromEtcd` of its old contents, and the method returns that function's error. |
| `Sync.RegisterContainer` | main.go:141-157 | The registry object ends as `Bridge.RegisterContainer` of its old contents, and the method returns that function's error. |
| `Sync.ListenForNewContainers` | main.go:116-139 | The event loop leaves the registry object as `Bridge.Listen` of its old contents and returns the stream's outcome. |
| `Sync.RegisterContainersPass` | main.go:81-90 | One pass leaves the registry object as `Bridge.ReconcilePass` of its old contents and returns the first error. |
| `Machine.DeriveHostRecord` | main.go:52-58 | The host name is always the record's `publicHostname` string. When the lookup fails, the name is `DOCKER_HOST` and the record is `{publicHostname: DOCKER_HOST}`. When the lookup succeeds, it fails exactly when `publicHostname` is missing or not a string. |
| `Machine.HeartbeatKeepsContainerRecords` | main.go:67-69 | A heartbeat leaves every container record unchanged. When etcd does not refuse the machine key, it writes the encoded record there with the 600 s lease. |
| `Machine.FallbackHeartbeat` | main.go:53-55 | When the lookup fails, the host name is `DOCKER_HOST`, and the heartbeat writes under that name's machine key with the 600 s lease. |
| `Machine.RegisterMachineOnce` | main.go:66-72 | One heartbeat leaves the registry object as `Machine.MachineHeartbeat` of its old contents and returns etcd's error. |

Several functions are the definitions the lemmas above are about, and carry no
contract of their own:

- `Keys.ContainerKey` builds the container key of main.go:179 and main.go:186.
- `Keys.MachineKey` builds the machine key of main.go:67.
- `Docker.Fetch` is the reply to the descriptor request of main.go:160. An id the daemon does not know gets a 404.
- `Bridge.RegisterInEtcd`, `Bridge.DeregisterFromEtcd` and `Bridge.RegisterContainer` model main.go:141-189.
- `Bridge.Dispatched` is the status test of main.go:135.
- `Bridge.ApplyEvent` is one turn of the event loop, main.go:135-137.
- `Bridge.ApplyEvents` and `Bridge.Listen` model main.go:116-139.
- `Bridge.Reconcile` and `Bridge.ReconcilePass` model main.go:81-90.
- `Machine.MachineHeartbeat` models main.go:67-69.

## Left out

- HTTP transport and unix-socket dialling (main.go:33-43): plumbing. The Docker API is a map from id to reply.
- An id that the runtime map does not mention is answered as a 404 would be, which gives an empty descriptor.
- JSON decoding of events and id lists, and JSON encoding of the host record (main.go:60-63, 104-109, 124-127). Events and ids arrive already decoded. A decode failure becomes `DecodeFailure`. The encoded machine record is a `data` parameter, so a failure of `json.Marshal` is not modelled.
- The `awsinfo.Get` call (main.go:52). Its result is the `lookup` parameter. The `DOCKER_HOST` value is a parameter too.
- Goroutines, the infinite `for` loops and `time.Sleep` (main.go:65-75, 79-93). The model covers one turn of each periodic loop and the arithmetic of the sleep interval. It has no clock. Races between the loops are not modelled.
- TTL expiry in etcd. A lease is a stored number, so "stale entries vanish" is not modelled.
- The etcd client library. etcd failures are a set of refused keys, a constant of the `Registry` object. A write to one key can fail while a write to another succeeds. But a key refused once is refused on every call in the run, so a transient failure that hits one call and spares a later call to the same key is not modelled.
- The Docker daemon's answers are one fixed map for a whole event stream or reconcile pass. A container whose descriptor changes, or that appears or disappears while a loop runs, is not modelled. `Bridge.RepeatedEventIsNoOp` relies on this: both copies of the event fetch the same descriptor.
- Etcd.Remove: deletes exactly one key. Real etcd's recursive delete would also remove keys under `key/`, and real etcd returns "key not found" for an absent key. The model treats that delete as a success. The only caller that deletes is the event loop, which discards the error, so the registry contents are the same either way.
- The nil dereference of `res.Body` at main.go:98, when the daemon cannot be reached. This is a crash, and it is modelled like the error it would otherwise return: the pass aborts.
- Logging (`log.Println`, `log.Printf`).
- The process-wide `hostname`, `client` and `etcdClient` variables (main.go:26-28). They are explicit parameters.
- The fallback record is `{publicHostname: DOCKER_HOST}` (main.go:55).
