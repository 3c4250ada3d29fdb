/** The etcd registry, reduced to a flat map from key to value and lease.
    Expiry of leases is not modelled: a lease is a stored number. */
module Etcd {
  import opened Outcomes

  /** What etcd keeps under one key: the value and its time to live. */
  datatype Entry = Entry(value: string, ttl: int)

  type Store = map<string, Entry>

  /** The error return of one registry operation and the contents after it. */
  datatype Step = Step(outcome: Outcome, store: Store)

  /** `s` and `t` hold the same thing under `k` (or both nothing). */
  predicate Agree(s: Store, t: Store, k: string)
  {
    (k in s <==> k in t) && (k in s ==> s[k] == t[k])
  }

  /** `Set(key, value, ttl)` against a registry that rejects writes to the keys in `refused`. */
  function Put(s: Store, refused: set<string>, key: string, value: string, ttl: int): (r: Step)
    ensures r.outcome.Pass? <==> key !in refused
    ensures r.outcome.Fail? ==> r.outcome.error == RegistryFailure && r.store == s
    ensures key !in refused ==> key in r.store && r.store[key] == Entry(value, ttl)
    ensures forall k :: k != key ==> Agree(s, r.store, k)
  {
    if key !in refused then Step(Pass, s[key := Entry(value, ttl)]) else Step(Fail(RegistryFailure), s)
  }

  /** `Delete(key, true)`; in a flat key space it removes just `key`,
      and an absent key is left absent without error. A refused key fails. */
  function Remove(s: Store, refused: set<string>, key: string): (r: Step)
    ensures r.outcome.Pass? <==> key !in refused
    ensures r.outcome.Fail? ==> r.outcome.error == RegistryFailure && r.store == s
    ensures key !in refused ==> key !in r.store
    ensures forall k :: k != key ==> Agree(s, r.store, k)
  {
    if key !in refused then Step(Pass, s - {key}) else Step(Fail(RegistryFailure), s)
  }

  /** Setting a key twice leaves what setting it once leaves. */
  lemma PutIdempotent(s: Store, refused: set<string>, key: string, value: string, ttl: int)
    ensures Put(Put(s, refused, key, value, ttl).store, refused, key, value, ttl)
         == Put(s, refused, key, value, ttl)
  {
  }

  /** Deleting a key twice leaves what deleting it once leaves. */
  lemma RemoveIdempotent(s: Store, refused: set<string>, key: string)
    ensures Remove(Remove(s, refused, key).store, refused, key) == Remove(s, refused, key)
  {
  }

  /** Deleting an absent key succeeds and changes nothing. */
  lemma RemoveAbsentIsNoOp(s: Store, refused: set<string>, key: string)
    requires key !in s && key !in refused
    ensures Remove(s, refused, key) == Step(Pass, s)
  {
  }

  /** A delete after a set of the same key leaves the old contents without that key. */
  lemma RemoveUndoesPut(s: Store, refused: set<string>, key: string, value: string, ttl: int)
    requires key !in refused
    ensures Remove(Put(s, refused, key, value, ttl).store, refused, key) == Step(Pass, s - {key})
  {
  }

  /** The etcd client as an object whose contents its methods change in place. */
  class Registry {
    var entries: Store
    /** The keys etcd rejects every set and delete of; fixed for the life of the object. */
    const refused: set<string>

    constructor (initial: Store, refused: set<string>)
      ensures entries == initial && this.refused == refused
    {
      entries := initial;
      this.refused := refused;
    }

    method Set(key: string, value: string, ttl: int) returns (o: Outcome)
      modifies this
      ensures Step(o, entries) == Put(old(entries), refused, key, value, ttl)
    {
      if key !in refused {
        entries := entries[key := Entry(value, ttl)];
        o := Pass;
      } else {
        o := Fail(RegistryFailure);
      }
    }

    method Delete(key: string) returns (o: Outcome)
      modifies this
      ensures Step(o, entries) == Remove(old(entries), refused, key)
    {
      if key !in refused {
        entries := entries - {key};
        o := Pass;
      } else {
        o := Fail(RegistryFailure);
      }
    }
  }
}
