/** Load balancer rows, the sequential meaning of the store operations, and the in-memory store. */
module LbStore {
  import opened CompoundKey
  import opened Sorting
  import Listing

  datatype LoadBalancer = LoadBalancer(
    uuid: string, name: string, mode: string, address: string, port: nat, backends: seq<string>,
    az: string, controller: string, project: string, status: string, createdAtNs: int)

  type Rows = map<string, LoadBalancer>

  datatype Op =
    | SetBackends(uuid: string, backends: seq<string>)
    | Create(lb: LoadBalancer)
    | Delete(uuid: string)

  datatype Outcome =
    | Stored(lb: LoadBalancer)
    | Removed
    | NotFound
    | AlreadyExists
    | UuidTaken     // etcd only: the create transaction found the key taken
    | Conflict      // etcd only: three lost races
    | Failed        // the call ended on a transport error

  ghost predicate NameTaken(rows: Rows, project: string, name: string) {
    exists u :: u in rows && rows[u].project == project && rows[u].name == name
  }

  /** The sequential meaning of one call: the next rows and the answer. */
  ghost function MemStep(rows: Rows, op: Op): (Rows, Outcome) {
    match op
    case SetBackends(uuid, backends) =>
      if uuid !in rows then (rows, NotFound)
      else
        var l := rows[uuid].(backends := backends);
        (rows[uuid := l], Stored(l))
    case Create(lb) =>
      if NameTaken(rows, lb.project, lb.name) then (rows, AlreadyExists)
      else (rows[lb.uuid := lb], Stored(lb))
    case Delete(uuid) =>
      if uuid !in rows then (rows, NotFound) else (rows - {uuid}, Removed)
  }

  /** Some row already answers to l's (project, name) key. */
  ghost predicate KeyTaken(rows: Rows, l: LoadBalancer) {
    exists u :: u in rows && Key(rows[u].project, rows[u].name) == Key(l.project, l.name)
  }

  ghost predicate BarFreeRows(rows: Rows) {
    forall u :: u in rows ==> BarFree(rows[u].project)
  }

  /** With no bar in any project, the key is taken exactly when the pair is. */
  lemma KeyTakenIsNameTaken(rows: Rows, l: LoadBalancer)
    requires BarFreeRows(rows) && BarFree(l.project)
    ensures KeyTaken(rows, l) <==> NameTaken(rows, l.project, l.name)
  {
    if u :| u in rows && Key(rows[u].project, rows[u].name) == Key(l.project, l.name) {
      KeyInjective(rows[u].project, rows[u].name, l.project, l.name);
    }
  }

  predicate ByCreation(a: LoadBalancer, b: LoadBalancer) {
    a.createdAtNs < b.createdAtNs || (a.createdAtNs == b.createdAtNs && StringLeq(a.name, b.name))
  }

  function InProject(project: string): LoadBalancer -> bool {
    (l: LoadBalancer) => project == "" || l.project == project
  }

  class MemoryStore {
    var byUUID: Rows
    var byPjName: map<string, string>

    /** Rows carry their key; the name index is the exact inverse. */
    ghost predicate Valid()
      reads this
    {
      && (forall u :: u in byUUID ==> byUUID[u].uuid == u)
      && (forall u :: u in byUUID ==>
           Key(byUUID[u].project, byUUID[u].name) in byPjName && byPjName[Key(byUUID[u].project, byUUID[u].name)] == u)
      && (forall k :: k in byPjName ==>
           byPjName[k] in byUUID && Key(byUUID[byPjName[k]].project, byUUID[byPjName[k]].name) == k)
    }

    constructor ()
      ensures Valid() && byUUID == map[]
    {
      byUUID, byPjName := map[], map[];
    }

    method List(project: string) returns (out: seq<LoadBalancer>)
      requires Valid()
      ensures Listing.IsListing(byUUID, InProject(project), ByCreation, out)
      ensures forall r :: r in out <==>
        exists u :: u in byUUID && byUUID[u] == r && (project == "" || r.project == project)
      ensures forall i, j :: 0 <= i < j < |out| ==>
        out[i].createdAtNs < out[j].createdAtNs
        || (out[i].createdAtNs == out[j].createdAtNs && StringLeq(out[i].name, out[j].name))
    {
      StringLeqIsTotalOrder();
      out := Listing.FilterSorted(byUUID, InProject(project), ByCreation);
      Listing.ListingMembers(byUUID, InProject(project), ByCreation, out);
    }

    method Create(l: LoadBalancer) returns (outcome: Outcome)
      requires Valid() && l.uuid !in byUUID
      modifies this
      ensures Valid() && (outcome.AlreadyExists? <==> KeyTaken(old(byUUID), l))
      ensures outcome.AlreadyExists? ==> byUUID == old(byUUID) && byPjName == old(byPjName)
      ensures !outcome.AlreadyExists? ==> outcome == Stored(l) && byUUID == old(byUUID)[l.uuid := l]
      ensures BarFreeRows(old(byUUID)) && BarFree(l.project) ==> (byUUID, outcome) == MemStep(old(byUUID), Op.Create(l))
    {
      if BarFreeRows(byUUID) && BarFree(l.project) { KeyTakenIsNameTaken(byUUID, l); }
      var k := Key(l.project, l.name);
      if k in byPjName {
        assert byPjName[k] in byUUID;
        return AlreadyExists;
      }
      byUUID := byUUID[l.uuid := l];
      byPjName := byPjName[k := l.uuid];
      return Stored(l);
    }

    method Delete(uuid: string) returns (outcome: Outcome)
      requires Valid()
      modifies this
      ensures Valid() && (byUUID, outcome) == MemStep(old(byUUID), Op.Delete(uuid))
      ensures byUUID == old(byUUID) - {uuid} && outcome == if uuid in old(byUUID) then Removed else NotFound
    {
      if uuid !in byUUID {
        return NotFound;
      }
      var l := byUUID[uuid];
      byUUID := byUUID - {uuid};
      byPjName := byPjName - {Key(l.project, l.name)};
      return Removed;
    }

    method Get(uuid: string) returns (outcome: Outcome)
      requires Valid()
      ensures outcome == if uuid in byUUID then Stored(byUUID[uuid]) else NotFound
    {
      return if uuid in byUUID then Stored(byUUID[uuid]) else NotFound;
    }

    method SetBackends(uuid: string, backends: seq<string>) returns (outcome: Outcome)
      requires Valid()
      modifies this
      ensures Valid() && (byUUID, outcome) == MemStep(old(byUUID), Op.SetBackends(uuid, backends))
      ensures uuid !in old(byUUID) ==> outcome == NotFound && byUUID == old(byUUID)
      ensures uuid in old(byUUID) ==>
        outcome == Stored(old(byUUID)[uuid].(backends := backends)) && byUUID == old(byUUID)[uuid := outcome.lb]
    {
      if uuid !in byUUID {
        return NotFound;
      }
      var l := byUUID[uuid].(backends := backends);
      byUUID := byUUID[uuid := l];
      return Stored(l);
    }
  }
}
