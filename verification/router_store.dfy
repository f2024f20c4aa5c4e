/** The router rows and their in-memory store. */
module RouterStore {
  import opened CompoundKey
  import opened Wrappers
  import opened Sorting
  import Listing

  datatype Router = Router(
    uuid: string, name: string, kind: string, backend: string, networks: seq<string>, external: string,
    prefixes: seq<string>, replicas: int, peerState: string, project: string, status: string, createdAtNs: int)

  datatype StoreError = AlreadyExists | NotFound

  /** The project filter of List; an empty project keeps every row. */
  function InProject(project: string): Router -> bool {
    (r: Router) => project == "" || r.project == project
  }

  predicate ByCreation(a: Router, b: Router) {
    a.createdAtNs < b.createdAtNs || (a.createdAtNs == b.createdAtNs && StringLeq(a.name, b.name))
  }

  /** Some row already answers to r's (project, name) key. */
  ghost predicate KeyTaken(rows: map<string, Router>, r: Router) {
    exists u :: u in rows && Key(rows[u].project, rows[u].name) == Key(r.project, r.name)
  }

  class MemoryStore {
    var byUUID: map<string, Router>
    var byPjName: map<string, string>

    /** The name rows are the exact inverse of the table. */
    ghost predicate Valid()
      reads this
    {
      && (forall u :: u in byUUID ==> byUUID[u].uuid == u)
      && (forall u :: u in byUUID ==>
           Key(byUUID[u].project, byUUID[u].name) in byPjName && byPjName[Key(byUUID[u].project, byUUID[u].name)] == u)
      && (forall k :: k in byPjName ==>
           byPjName[k] in byUUID && Key(byUUID[byPjName[k]].project, byUUID[byPjName[k]].name) == k)
    }

    constructor ()
      ensures Valid() && byUUID == map[]
    {
      byUUID, byPjName := map[], map[];
    }

    method List(project: string) returns (out: seq<Router>)
      requires Valid()
      ensures Listing.IsListing(byUUID, InProject(project), ByCreation, out)
      ensures forall r :: r in out <==>
        exists u :: u in byUUID && byUUID[u] == r && (project == "" || r.project == project)
      ensures forall i, j :: 0 <= i < j < |out| ==>
        out[i].createdAtNs < out[j].createdAtNs
        || (out[i].createdAtNs == out[j].createdAtNs && StringLeq(out[i].name, out[j].name))
    {
      StringLeqIsTotalOrder();
      out := Listing.FilterSorted(byUUID, InProject(project), ByCreation);
      Listing.ListingMembers(byUUID, InProject(project), ByCreation, out);
    }

    method Create(r: Router) returns (result: Result<Router, StoreError>)
      requires Valid() && r.uuid !in byUUID
      modifies this
      ensures Valid()
      ensures result.Err? <==> KeyTaken(old(byUUID), r)
      ensures result.Err? ==> result.error == AlreadyExists && byUUID == old(byUUID) && byPjName == old(byPjName)
      ensures result.Ok? ==> result.value == r && byUUID == old(byUUID)[r.uuid := r]
    {
      var k := Key(r.project, r.name);
      if k in byPjName {
        assert byPjName[k] in byUUID;
        return Err(AlreadyExists);
      }
      byUUID := byUUID[r.uuid := r];
      byPjName := byPjName[k := r.uuid];
      return Ok(r);
    }

    method Delete(uuid: string) returns (result: Result<(), StoreError>)
      requires Valid()
      modifies this
      ensures Valid() && byUUID == old(byUUID) - {uuid}
      ensures result == if uuid in old(byUUID) then Ok(()) else Err(NotFound)
    {
      if uuid !in byUUID {
        return Err(NotFound);
      }
      var r := byUUID[uuid];
      byUUID := byUUID - {uuid};
      byPjName := byPjName - {Key(r.project, r.name)};
      return Ok(());
    }

    method Get(uuid: string) returns (result: Result<Router, StoreError>)
      requires Valid()
      ensures result == if uuid in byUUID then Ok(byUUID[uuid]) else Err(NotFound)
    {
      return if uuid in byUUID then Ok(byUUID[uuid]) else Err(NotFound);
    }

    method UpdateStatus(uuid: string, status: string, peerState: string) returns (result: Result<(), StoreError>)
      requires Valid()
      modifies this
      ensures Valid() && byPjName == old(byPjName)
      ensures uuid !in old(byUUID) ==> result == Err(NotFound) && byUUID == old(byUUID)
      ensures uuid in old(byUUID) ==>
        result == Ok(()) && byUUID == old(byUUID)[uuid := old(byUUID)[uuid].(status := status, peerState := peerState)]
    {
      if uuid !in byUUID {
        return Err(NotFound);
      }
      var r := byUUID[uuid].(status := status, peerState := peerState);
      byUUID := byUUID[uuid := r];
      return Ok(());
    }
  }
}
