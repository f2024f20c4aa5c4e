/** The in-memory DNS store: four maps kept in step. */
module DnsMemory {
  import opened CompoundKey
  import opened Wrappers
  import opened DnsStore
  import opened Sorting
  import Listing

  /** recordsByZ inverts Record.zoneUUID over exactly the existing zones. */
  ghost predicate Inverse(t: Tables, byZone: map<string, set<string>>) {
    && byZone.Keys == t.zones.Keys
    && forall z :: z in byZone ==> byZone[z] == RecordsOf(t.records, z)
  }

  function KeyOf(z: Zone): string {
    Key(z.project, z.name)
  }

  /** zoneByName inverts the zone table. */
  ghost predicate Named(zones: map<string, Zone>, byName: map<string, string>) {
    && (forall z {:trigger HasName(zones, byName, z)} :: z in zones ==> HasName(zones, byName, z))
    && (forall k {:trigger NamesZone(zones, byName, k)} :: k in byName ==> NamesZone(zones, byName, k))
  }

  ghost predicate HasName(zones: map<string, Zone>, byName: map<string, string>, z: string)
    requires z in zones
  {
    KeyOf(zones[z]) in byName && byName[KeyOf(zones[z])] == z
  }

  ghost predicate NamesZone(zones: map<string, Zone>, byName: map<string, string>, k: string)
    requires k in byName
  {
    byName[k] in zones && KeyOf(zones[byName[k]]) == k
  }

  /** Some zone already answers to z's (project, name) key. */
  ghost predicate KeyTaken(zones: map<string, Zone>, z: Zone) {
    exists u :: u in zones && KeyOf(zones[u]) == KeyOf(z)
  }

  ghost predicate BarFreeZones(zones: map<string, Zone>) {
    forall u :: u in zones ==> BarFree(zones[u].project)
  }

  /** The name map answers whether the key is taken; a taken name is a taken key. */
  lemma KeyInUse(zones: map<string, Zone>, byName: map<string, string>, z: Zone)
    requires Named(zones, byName)
    ensures KeyOf(z) in byName <==> KeyTaken(zones, z)
    ensures NameTaken(zones, z.project, z.name) ==> KeyTaken(zones, z)
  {
    assert forall u :: u in zones ==> HasName(zones, byName, u);
    if KeyOf(z) in byName {
      assert NamesZone(zones, byName, KeyOf(z));
    }
    if u :| u in zones && zones[u].project == z.project && zones[u].name == z.name {
      assert KeyOf(zones[u]) == KeyOf(z);
    }
  }

  /** With no bar in any project, the key is taken exactly when the pair is. */
  lemma KeyTakenIsNameTaken(zones: map<string, Zone>, z: Zone)
    requires BarFreeZones(zones) && BarFree(z.project)
    ensures KeyTaken(zones, z) <==> NameTaken(zones, z.project, z.name)
  {
    if u :| u in zones && KeyOf(zones[u]) == KeyOf(z) {
      KeyInjective(zones[u].project, zones[u].name, z.project, z.name);
    }
    if u :| u in zones && zones[u].project == z.project && zones[u].name == z.name {
      assert KeyOf(zones[u]) == KeyOf(z);
    }
  }

  lemma NamedAdd(zones: map<string, Zone>, byName: map<string, string>, z: Zone)
    requires Named(zones, byName) && z.uuid !in zones && KeyOf(z) !in byName
    ensures Named(zones[z.uuid := z], byName[KeyOf(z) := z.uuid])
  {
    forall u | u in zones
      ensures HasName(zones[z.uuid := z], byName[KeyOf(z) := z.uuid], u) { assert HasName(zones, byName, u); }
    forall k | k in byName
      ensures NamesZone(zones[z.uuid := z], byName[KeyOf(z) := z.uuid], k) { assert NamesZone(zones, byName, k); }
  }

  lemma NamedRemove(zones: map<string, Zone>, byName: map<string, string>, u: string)
    requires Named(zones, byName) && u in zones
    ensures Named(zones - {u}, byName - {KeyOf(zones[u])})
  {
    var zones', byName' := zones - {u}, byName - {KeyOf(zones[u])};
    assert HasName(zones, byName, u);
    forall z | z in zones' ensures HasName(zones', byName', z) { assert HasName(zones, byName, z); }
    forall k | k in byName' ensures NamesZone(zones', byName', k) { assert NamesZone(zones, byName, k); }
  }

  lemma NamedRecount(zones: map<string, Zone>, byName: map<string, string>, u: string, n: int)
    requires Named(zones, byName) && u in zones
    ensures Named(zones[u := zones[u].(records := n)], byName)
  {
    var zones' := zones[u := zones[u].(records := n)];
    forall z | z in zones' ensures HasName(zones', byName, z) { assert HasName(zones, byName, z); }
    forall k | k in byName ensures NamesZone(zones', byName, k) { assert NamesZone(zones, byName, k); }
  }

  lemma InverseRemoveZone(t: Tables, byZone: map<string, set<string>>, u: string)
    requires Inverse(t, byZone) && u in t.zones
    ensures Inverse(Tables(t.zones - {u}, t.records - RecordsOf(t.records, u)), byZone - {u})
  {
    forall z | z in t.zones && z != u
      ensures RecordsOf(t.records - RecordsOf(t.records, u), z) == RecordsOf(t.records, z) {}
  }

  lemma InverseAddRecord(t: Tables, byZone: map<string, set<string>>, r: Record, z: Zone)
    requires Inverse(t, byZone) && r.uuid !in t.records && r.zoneUUID in t.zones
    ensures Inverse(Tables(t.zones[r.zoneUUID := z], t.records[r.uuid := r]),
      byZone[r.zoneUUID := byZone[r.zoneUUID] + {r.uuid}])
  {
    var records := t.records[r.uuid := r];
    assert RecordsOf(records, r.zoneUUID) == RecordsOf(t.records, r.zoneUUID) + {r.uuid};
    forall u | u != r.zoneUUID ensures RecordsOf(records, u) == RecordsOf(t.records, u) {}
  }

  lemma InverseRemoveRecord(t: Tables, byZone: map<string, set<string>>, uuid: string, z: Zone)
    requires Inverse(t, byZone) && uuid in t.records && t.records[uuid].zoneUUID in t.zones
    ensures
      var zone := t.records[uuid].zoneUUID;
      Inverse(Tables(t.zones[zone := z], t.records - {uuid}), byZone[zone := byZone[zone] - {uuid}])
  {
    var zone, records := t.records[uuid].zoneUUID, t.records - {uuid};
    assert RecordsOf(records, zone) == RecordsOf(t.records, zone) - {uuid};
    forall u | u != zone ensures RecordsOf(records, u) == RecordsOf(t.records, u) {}
  }

  /** Everything the four maps promise each other. */
  ghost predicate Linked(t: Tables, byName: map<string, string>, byZone: map<string, set<string>>) {
    Consistent(t) && UniqueNames(t) && Inverse(t, byZone) && Named(t.zones, byName)
  }

  lemma LinkedCreateZone(t: Tables, byName: map<string, string>, byZone: map<string, set<string>>, z: Zone)
    requires Linked(t, byName, byZone) && z.uuid !in t.zones && z.records == 0
    ensures KeyOf(z) in byName <==> KeyTaken(t.zones, z)
    ensures KeyOf(z) !in byName ==>
      !NameTaken(t.zones, z.project, z.name) &&
        Linked(CreateZoneStep(t, z).0, byName[KeyOf(z) := z.uuid], byZone[z.uuid := {}])
  {
    CreateZoneKeeps(t, z);
    KeyInUse(t.zones, byName, z);
    if KeyOf(z) !in byName {
      NamedAdd(t.zones, byName, z);
      assert forall u :: u in t.records ==> RecordOk(t, u);
      assert RecordsOf(t.records, z.uuid) == {};
    }
  }

  lemma LinkedDeleteZone(t: Tables, byName: map<string, string>, byZone: map<string, set<string>>, uuid: string)
    requires Linked(t, byName, byZone) && uuid in t.zones
    ensures Linked(DeleteZoneStep(t, uuid).0, byName - {KeyOf(t.zones[uuid])}, byZone - {uuid})
    ensures byZone[uuid] == RecordsOf(t.records, uuid)
  {
    DeleteZoneKeeps(t, uuid);
    NamedRemove(t.zones, byName, uuid);
    InverseRemoveZone(t, byZone, uuid);
  }

  lemma LinkedCreateRecord(t: Tables, byName: map<string, string>, byZone: map<string, set<string>>, r: Record)
    requires Linked(t, byName, byZone) && r.uuid !in t.records && r.zoneUUID in t.zones
    ensures
      var z, members := t.zones[r.zoneUUID], byZone[r.zoneUUID] + {r.uuid};
      var t' := CreateRecordStep(t, r).0;
      && t'.zones == t.zones[r.zoneUUID := z.(records := Int32(|members|))]
      && t'.records == t.records[r.uuid := r.(zoneName := z.name)]
      && Linked(t', byName, byZone[r.zoneUUID := members])
  {
    assert ZoneOk(t, r.zoneUUID);
    CreateRecordKeeps(t, r);
    var t' := CreateRecordStep(t, r).0;
    InverseAddRecord(t, byZone, t'.records[r.uuid], t'.zones[r.zoneUUID]);
    NamedRecount(t.zones, byName, r.zoneUUID, t'.zones[r.zoneUUID].records);
  }

  lemma LinkedDeleteRecord(t: Tables, byName: map<string, string>, byZone: map<string, set<string>>, uuid: string)
    requires Linked(t, byName, byZone) && uuid in t.records
    ensures t.records[uuid].zoneUUID in t.zones
    ensures
      var zone := t.records[uuid].zoneUUID;
      var members, t' := byZone[zone] - {uuid}, DeleteRecordStep(t, uuid).0;
      && t'.zones == t.zones[zone := t.zones[zone].(records := Int32(|members|))]
      && t'.records == t.records - {uuid}
      && Linked(t', byName, byZone[zone := members])
  {
    assert RecordOk(t, uuid);
    DeleteRecordKeeps(t, uuid);
    var zone, t' := t.records[uuid].zoneUUID, DeleteRecordStep(t, uuid).0;
    InverseRemoveRecord(t, byZone, uuid, t'.zones[zone]);
    NamedRecount(t.zones, byName, zone, t'.zones[zone].records);
  }

  class MemoryStore {
    var zones: map<string, Zone>
    var zoneByName: map<string, string>
    var records: map<string, Record>
    var recordsByZ: map<string, set<string>>

    function Abs(): Tables
      reads this
    {
      Tables(zones, records)
    }

    ghost predicate Valid()
      reads this
    {
      Linked(Abs(), zoneByName, recordsByZ)
    }

    constructor ()
      ensures Valid() && Abs() == EMPTY_TABLES
    {
      zones, zoneByName, records, recordsByZ := map[], map[], map[], map[];
    }

    method ListZones(project: string) returns (out: seq<Zone>)
      requires Valid()
      ensures Listing.IsListing(zones, ZonesIn(project), ByCreation, out)
      ensures forall z :: z in out <==>
        exists u :: u in zones && zones[u] == z && (project == "" || z.project == project)
      ensures forall i, j :: 0 <= i < j < |out| ==>
        out[i].createdAtNs < out[j].createdAtNs
        || (out[i].createdAtNs == out[j].createdAtNs && StringLeq(out[i].name, out[j].name))
    {
      OrdersArePreorders();
      out := Listing.FilterSorted(zones, ZonesIn(project), ByCreation);
      Listing.ListingMembers(zones, ZonesIn(project), ByCreation, out);
    }

    method CreateZone(z: Zone) returns (result: Result<Zone, DnsError>)
      requires Valid() && z.uuid !in zones && z.records == 0
      modifies this
      ensures Valid() && (result.Err? <==> KeyTaken(old(zones), z))
      ensures result.Err? ==> result.error == AlreadyExists && Abs() == old(Abs())
      ensures result.Ok? ==> (Abs(), result) == CreateZoneStep(old(Abs()), z)
      ensures result.Ok? ==> result.value == z && zones == old(zones)[z.uuid := z] && records == old(records)
      ensures BarFreeZones(old(zones)) && BarFree(z.project) ==> (Abs(), result) == CreateZoneStep(old(Abs()), z)
    {
      LinkedCreateZone(Abs(), zoneByName, recordsByZ, z);
      if BarFreeZones(zones) && BarFree(z.project) { KeyTakenIsNameTaken(zones, z); }
      var key := Key(z.project, z.name);
      if key in zoneByName {
        return Err(AlreadyExists);
      }
      zones := zones[z.uuid := z];
      zoneByName := zoneByName[key := z.uuid];
      recordsByZ := recordsByZ[z.uuid := {}];
      return Ok(z);
    }

    method DeleteZone(uuid: string) returns (result: Result<(), DnsError>)
      requires Valid()
      modifies this
      ensures Valid() && (Abs(), result) == DeleteZoneStep(old(Abs()), uuid)
      ensures result == if uuid in old(zones) then Ok(()) else Err(NotFound)
      ensures zones == old(zones) - {uuid}
      ensures forall r :: r in records <==> r in old(records) && old(records)[r].zoneUUID != uuid
      ensures forall r :: r in records ==> records[r] == old(records)[r]
    {
      assert forall r :: r in records ==> RecordOk(Abs(), r);
      if uuid !in zones {
        return Err(NotFound);
      }
      var z := zones[uuid];
      LinkedDeleteZone(Abs(), zoneByName, recordsByZ, uuid);
      DropRecords(recordsByZ[uuid]);
      recordsByZ := recordsByZ - {uuid};
      zones := zones - {uuid};
      zoneByName := zoneByName - {Key(z.project, z.name)};
      return Ok(());
    }

    /** The cascade's walk over one zone's records. */
    method DropRecords(doomed: set<string>)
      modifies this`records
      ensures records == old(records) - doomed
    {
      var left := doomed;
      ghost var gone: set<string> := {};
      while left != {}
        invariant left + gone == doomed && records == old(records) - gone
        decreases left
      {
        var r :| r in left;
        records := records - {r};
        left, gone := left - {r}, gone + {r};
      }
      assert gone == doomed;
    }

    method GetZone(uuid: string) returns (result: Result<Zone, DnsError>)
      requires Valid()
      ensures result == if uuid in zones then Ok(zones[uuid]) else Err(NotFound)
    {
      return if uuid in zones then Ok(zones[uuid]) else Err(NotFound);
    }

    method ListRecords(zone: string) returns (out: seq<Record>)
      requires Valid()
      ensures Listing.IsListing(records, RecordsIn(zone), ByName, out)
      ensures forall r :: r in out <==>
        exists u :: u in records && records[u] == r && (zone == "" || r.zoneUUID == zone)
      ensures forall i, j :: 0 <= i < j < |out| ==>
        if out[i].zoneName != out[j].zoneName then StringLeq(out[i].zoneName, out[j].zoneName)
        else if out[i].name != out[j].name then StringLeq(out[i].name, out[j].name)
        else StringLeq(out[i].kind, out[j].kind)
    {
      OrdersArePreorders();
      assert forall u :: u in records ==> RecordOk(Abs(), u);
      out := Listing.FilterSorted(records, RecordsIn(zone), ByName);
      Listing.ListingMembers(records, RecordsIn(zone), ByName, out);
    }

    method CreateRecord(r: Record) returns (result: Result<Record, DnsError>)
      requires Valid() && r.uuid !in records
      modifies this
      ensures Valid() && (Abs(), result) == CreateRecordStep(old(Abs()), r)
      ensures r.zoneUUID !in old(zones) ==> result == Err(ZoneNotFound) && Abs() == old(Abs())
      ensures r.zoneUUID in old(zones) ==>
        && result == Ok(r.(zoneName := old(zones)[r.zoneUUID].name))
        && records == old(records)[r.uuid := result.value] && zones.Keys == old(zones).Keys
        && forall u :: u in zones ==> old(zones)[u] == zones[u].(records := old(zones)[u].records)
    {
      if r.zoneUUID !in zones {
        return Err(ZoneNotFound);
      }
      var z := zones[r.zoneUUID];
      var row := r.(zoneName := z.name);
      LinkedCreateRecord(Abs(), zoneByName, recordsByZ, r);
      ghost var t' := CreateRecordStep(Abs(), r).0;
      records := records[r.uuid := row];
      var zSet := recordsByZ[r.zoneUUID] + {r.uuid};
      recordsByZ := recordsByZ[r.zoneUUID := zSet];
      zones := zones[r.zoneUUID := z.(records := Int32(|zSet|))];
      assert Abs() == t';
      return Ok(row);
    }

    method DeleteRecord(uuid: string) returns (result: Result<(), DnsError>)
      requires Valid()
      modifies this
      ensures Valid() && (Abs(), result) == DeleteRecordStep(old(Abs()), uuid)
      ensures result == if uuid in old(records) then Ok(()) else Err(NotFound)
      ensures records == old(records) - {uuid} && zones.Keys == old(zones).Keys
      ensures forall u :: u in zones ==> old(zones)[u] == zones[u].(records := old(zones)[u].records)
    {
      if uuid !in records {
        return Err(NotFound);
      }
      var r := records[uuid];
      LinkedDeleteRecord(Abs(), zoneByName, recordsByZ, uuid);
      ghost var t' := DeleteRecordStep(Abs(), uuid).0;
      records := records - {uuid};
      if r.zoneUUID in recordsByZ {
        var zSet := recordsByZ[r.zoneUUID] - {uuid};
        recordsByZ := recordsByZ[r.zoneUUID := zSet];
        if r.zoneUUID in zones {
          zones := zones[r.zoneUUID := zones[r.zoneUUID].(records := Int32(|zSet|))];
        }
      }
      assert Abs() == t';
      return Ok(());
    }

    method GetRecord(uuid: string) returns (result: Result<Record, DnsError>)
      requires Valid()
      ensures result == if uuid in records then Ok(records[uuid]) else Err(NotFound)
    {
      return if uuid in records then Ok(records[uuid]) else Err(NotFound);
    }
  }
}
