/** The part of etcd the stores rely on: a revisioned map with create and modification revisions. */
module EtcdKV {
  datatype KV<+V> = KV(value: V, createRev: nat, modRev: nat)

  type Keyspace<V> = map<string, KV<V>>

  /** Revisions start at 1 and never run ahead of the store's counter. */
  ghost predicate WellRevised<V>(rev: nat, kvs: Keyspace<V>) {
    forall k :: k in kvs ==> 1 <= kvs[k].createRev <= kvs[k].modRev <= rev
  }

  /** An absent key compares as revision 0. */
  function ModRev<V>(kvs: Keyspace<V>, k: string): nat {
    if k in kvs then kvs[k].modRev else 0
  }

  function CreateRev<V>(kvs: Keyspace<V>, k: string): nat {
    if k in kvs then kvs[k].createRev else 0
  }

  /** The keyspace after a put at revision rev. */
  function Put<V>(kvs: Keyspace<V>, k: string, v: V, rev: nat): Keyspace<V> {
    kvs[k := KV(v, if k in kvs then kvs[k].createRev else rev, rev)]
  }

  function Values<V>(kvs: Keyspace<V>): map<string, V> {
    map k | k in kvs :: kvs[k].value
  }

  lemma ValuesOfPut<V>(kvs: Keyspace<V>, k: string, v: V, rev: nat)
    ensures Values(Put(kvs, k, v, rev)) == Values(kvs)[k := v]
  {}

  lemma ValuesOfRemove<V>(kvs: Keyspace<V>, k: string)
    ensures Values(kvs - {k}) == Values(kvs) - {k}
  {}
}
