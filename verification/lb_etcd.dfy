/** The etcd load balancer store with one client: its scans, guarded puts and retry loop match the in-memory store. */
module LbEtcd {
  import opened EtcdKV
  import opened LbStore

  const MAX_ATTEMPTS := 3

  class EtcdStore {
    var rev: nat
    var kvs: Keyspace<LoadBalancer>

    ghost predicate Valid()
      reads this
    {
      WellRevised(rev, kvs) && forall u :: u in kvs ==> kvs[u].value.uuid == u
    }

    ghost function Abs(): Rows
      reads this
    {
      Values(kvs)
    }

    constructor ()
      ensures Valid() && Abs() == map[]
    {
      rev, kvs := 1, map[];
    }

    method Create(l: LoadBalancer) returns (outcome: Outcome)
      requires Valid()
      modifies this
      ensures Valid()
      ensures l.uuid !in old(kvs) || NameTaken(old(Abs()), l.project, l.name) ==>
        (Abs(), outcome) == MemStep(old(Abs()), Op.Create(l))
      ensures l.uuid in old(kvs) && !NameTaken(old(Abs()), l.project, l.name) ==>
        outcome == UuidTaken && Abs() == old(Abs())
    {
      var taken := NameInUse(l.project, l.name);
      if taken {
        return AlreadyExists;
      }
      if CreateRev(kvs, l.uuid) != 0 {
        return UuidTaken;
      }
      ValuesOfPut(kvs, l.uuid, l, rev + 1);
      kvs, rev := Put(kvs, l.uuid, l, rev + 1), rev + 1;
      return Stored(l);
    }

    /** The uniqueness scan. */
    method NameInUse(project: string, name: string) returns (taken: bool)
      ensures taken <==> NameTaken(Values(kvs), project, name)
    {
      var left := kvs.Keys;
      while left != {}
        invariant left <= kvs.Keys
        invariant forall u :: u in kvs.Keys - left ==> !(kvs[u].value.project == project && kvs[u].value.name == name)
        decreases left
      {
        var u :| u in left;
        if kvs[u].value.project == project && kvs[u].value.name == name {
          assert Values(kvs)[u].name == name;
          return true;
        }
        left := left - {u};
      }
      return false;
    }

    method Delete(uuid: string) returns (outcome: Outcome)
      requires Valid()
      modifies this
      ensures Valid() && (Abs(), outcome) == MemStep(old(Abs()), Op.Delete(uuid))
    {
      if uuid !in kvs {
        return NotFound;
      }
      ValuesOfRemove(kvs, uuid);
      kvs, rev := kvs - {uuid}, rev + 1;
      return Removed;
    }

    method SetBackends(uuid: string, backends: seq<string>) returns (outcome: Outcome)
      requires Valid()
      modifies this
      ensures Valid() && (Abs(), outcome) == MemStep(old(Abs()), Op.SetBackends(uuid, backends))
    {
      var attempt := 0;
      outcome := Conflict;
      while attempt < MAX_ATTEMPTS && outcome.Conflict?
        invariant 0 <= attempt <= MAX_ATTEMPTS && (attempt > 0 ==> !outcome.Conflict?)
        invariant outcome.Conflict? ==> kvs == old(kvs) && rev == old(rev)
        invariant !outcome.Conflict? ==>
          Valid() && (Abs(), outcome) == MemStep(old(Abs()), Op.SetBackends(uuid, backends))
        decreases MAX_ATTEMPTS - attempt
      {
        if uuid !in kvs {
          return NotFound;
        }
        var seen := kvs[uuid];
        var l := seen.value.(backends := backends);
        if ModRev(kvs, uuid) == seen.modRev {
          ValuesOfPut(kvs, uuid, l, rev + 1);
          kvs, rev := Put(kvs, uuid, l, rev + 1), rev + 1;
          outcome := Stored(l);
        }
        attempt := attempt + 1;
      }
    }
  }
}
