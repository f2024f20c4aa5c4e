/** DNS zones and records: the rows, the sequential meaning of every operation, and what each one keeps. */
module DnsStore {
  import opened Wrappers
  import opened Sorting

  datatype Zone = Zone(
    uuid: string, name: string, role: string, records: int, ttlDefault: int, backend: string,
    pushTarget: string, pushState: string, project: string, status: string, createdAtNs: int)

  datatype Record = Record(
    uuid: string, zoneUUID: string, zoneName: string, name: string, kind: string, value: string,
    ttl: int, source: string)

  datatype DnsError = AlreadyExists | NotFound | ZoneNotFound | UuidTaken

  datatype Tables = Tables(zones: map<string, Zone>, records: map<string, Record>)

  const EMPTY_TABLES := Tables(map[], map[])

  /** The 32-bit conversion of the record count: wraps around. */
  function Int32(n: int): int {
    (n + 0x8000_0000) % 0x1_0000_0000 - 0x8000_0000
  }

  /** The 32-bit value that differs from n by a multiple of 2^32. */
  lemma Int32Meaning(n: int, m: int)
    ensures m == Int32(n) <==> -0x8000_0000 <= m < 0x8000_0000 && (n - m) % 0x1_0000_0000 == 0
  {
    var q := (n + 0x8000_0000) / 0x1_0000_0000;
    assert n - Int32(n) == 0x1_0000_0000 * q;
    if -0x8000_0000 <= m < 0x8000_0000 && (n - m) % 0x1_0000_0000 == 0 {
      assert n - m == 0x1_0000_0000 * ((n - m) / 0x1_0000_0000);
      ModShift(n + 0x8000_0000, (n - m) / 0x1_0000_0000);
    } else if m == Int32(n) {
      ModShift(n - m, q);
    }
  }

  lemma Int32Step(n: int, d: int)
    ensures Int32(Int32(n) + d) == Int32(n + d)
  {
    assert (n + 0x8000_0000) % 0x1_0000_0000 == n + 0x8000_0000 - 0x1_0000_0000 * ((n + 0x8000_0000) / 0x1_0000_0000);
    var q := (n + 0x8000_0000) / 0x1_0000_0000;
    ModShift(n + d + 0x8000_0000, q);
  }

  lemma ModShift(x: int, q: int)
    ensures (x - 0x1_0000_0000 * q) % 0x1_0000_0000 == x % 0x1_0000_0000
  {
    assert x == 0x1_0000_0000 * (x / 0x1_0000_0000) + x % 0x1_0000_0000;
    assert x - 0x1_0000_0000 * q == 0x1_0000_0000 * (x / 0x1_0000_0000 - q) + x % 0x1_0000_0000;
  }

  ghost function RecordsOf(records: map<string, Record>, zone: string): set<string> {
    set u | u in records && records[u].zoneUUID == zone
  }

  ghost predicate NameTaken(zones: map<string, Zone>, project: string, name: string) {
    exists u :: u in zones && zones[u].project == project && zones[u].name == name
  }

  // ---- The sequential meaning ----

  ghost function CreateZoneStep(t: Tables, z: Zone): (Tables, Result<Zone, DnsError>) {
    if NameTaken(t.zones, z.project, z.name) then (t, Err(AlreadyExists))
    else (t.(zones := t.zones[z.uuid := z]), Ok(z))
  }

  ghost function DeleteZoneStep(t: Tables, uuid: string): (Tables, Result<(), DnsError>) {
    if uuid !in t.zones then (t, Err(NotFound))
    else (Tables(t.zones - {uuid}, t.records - RecordsOf(t.records, uuid)), Ok(()))
  }

  ghost function CreateRecordStep(t: Tables, r: Record): (Tables, Result<Record, DnsError>) {
    if r.zoneUUID !in t.zones then (t, Err(ZoneNotFound))
    else
      var z := t.zones[r.zoneUUID];
      var r' := r.(zoneName := z.name);
      var records := t.records[r.uuid := r'];
      (Tables(t.zones[z.uuid := z.(records := Int32(|RecordsOf(records, z.uuid)|))], records), Ok(r'))
  }

  ghost function DeleteRecordStep(t: Tables, uuid: string): (Tables, Result<(), DnsError>) {
    if uuid !in t.records then (t, Err(NotFound))
    else
      var zone := t.records[uuid].zoneUUID;
      var records := t.records - {uuid};
      (Tables(if zone in t.zones then t.zones[zone := t.zones[zone].(records := Int32(|RecordsOf(records, zone)|))]
        else t.zones,
              records), Ok(()))
  }

  // ---- What the tables keep ----

  /** Foreign keys hold, names are copied, and every zone carries its record count. */
  ghost predicate Consistent(t: Tables) {
    && (forall u {:trigger ZoneOk(t, u)} :: u in t.zones ==> ZoneOk(t, u))
    && (forall u {:trigger RecordOk(t, u)} :: u in t.records ==> RecordOk(t, u))
  }

  ghost predicate ZoneOk(t: Tables, u: string)
    requires u in t.zones
  {
    t.zones[u].uuid == u && t.zones[u].records == Int32(|RecordsOf(t.records, u)|)
  }

  ghost predicate RecordOk(t: Tables, u: string)
    requires u in t.records
  {
    var r := t.records[u];
    r.uuid == u && r.zoneUUID in t.zones && r.zoneName == t.zones[r.zoneUUID].name
  }

  ghost predicate UniqueNames(t: Tables) {
    forall u, v :: u in t.zones && v in t.zones && SameName(t.zones[u], t.zones[v]) ==> u == v
  }

  predicate SameName(a: Zone, b: Zone) {
    a.project == b.project && a.name == b.name
  }

  lemma CreateZoneKeeps(t: Tables, z: Zone)
    requires Consistent(t) && UniqueNames(t) && z.uuid !in t.zones && z.records == 0
    ensures Consistent(CreateZoneStep(t, z).0) && UniqueNames(CreateZoneStep(t, z).0)
  {
    assert forall u :: u in t.records ==> RecordOk(t, u);
    assert RecordsOf(t.records, z.uuid) == {};
    assert |RecordsOf(t.records, z.uuid)| == 0;
    if !NameTaken(t.zones, z.project, z.name) {
      FreeNameKeepsUnique(t, z);
      var t' := CreateZoneStep(t, z).0;
      forall u | u in t'.zones ensures ZoneOk(t', u) { assert u != z.uuid ==> ZoneOk(t, u); }
      forall u | u in t'.records ensures RecordOk(t', u) { assert RecordOk(t, u); }
    }
  }

  lemma FreeNameKeepsUnique(t: Tables, z: Zone)
    requires UniqueNames(t) && !NameTaken(t.zones, z.project, z.name)
    ensures UniqueNames(t.(zones := t.zones[z.uuid := z]))
  {
    var zones' := t.zones[z.uuid := z];
    forall u, v | u in zones' && v in zones' && SameName(zones'[u], zones'[v]) ensures u == v
    {
      assert u != z.uuid ==> zones'[u] == t.zones[u];
      assert v != z.uuid ==> zones'[v] == t.zones[v];
    }
  }

  /** A cascade removes the zone's records and nobody else's. */
  lemma DeleteZoneKeeps(t: Tables, uuid: string)
    requires Consistent(t) && UniqueNames(t)
    ensures var t' := DeleteZoneStep(t, uuid).0;
      && Consistent(t') && UniqueNames(t')
      && (uuid in t.zones ==> forall r :: r in t'.records <==> r in t.records && t.records[r].zoneUUID != uuid)
  {
    var t' := DeleteZoneStep(t, uuid).0;
    forall u | u in t'.zones ensures ZoneOk(t', u) {
      assert ZoneOk(t, u);
      assert RecordsOf(t'.records, u) == RecordsOf(t.records, u);
    }
    forall u | u in t'.records ensures RecordOk(t', u) { assert RecordOk(t, u); }
  }

  /** Replacing a zone row by one of the same name leaves names unique. */
  lemma RecountKeepsUnique(t: Tables, u: string, n: int)
    requires UniqueNames(t) && u in t.zones
    ensures UniqueNames(t.(zones := t.zones[u := t.zones[u].(records := n)]))
  {}

  lemma CreateRecordKeeps(t: Tables, r: Record)
    requires Consistent(t) && UniqueNames(t) && r.uuid !in t.records
    ensures var t' := CreateRecordStep(t, r).0; Consistent(t') && UniqueNames(t')
    ensures r.zoneUUID in t.zones ==>
      |RecordsOf(CreateRecordStep(t, r).0.records, r.zoneUUID)| == |RecordsOf(t.records, r.zoneUUID)| + 1
  {
    if r.zoneUUID in t.zones {
      var t' := CreateRecordStep(t, r).0;
      assert ZoneOk(t, r.zoneUUID);
      assert RecordsOf(t'.records, r.zoneUUID) == RecordsOf(t.records, r.zoneUUID) + {r.uuid};
      forall u | u in t'.zones ensures ZoneOk(t', u) {
        assert ZoneOk(t, u);
        assert u != r.zoneUUID ==> RecordsOf(t'.records, u) == RecordsOf(t.records, u);
      }
      forall u | u in t'.records ensures RecordOk(t', u) { assert u != r.uuid ==> RecordOk(t, u); }
      RecountKeepsUnique(t, r.zoneUUID, t'.zones[r.zoneUUID].records);
    }
  }

  lemma DeleteRecordKeeps(t: Tables, uuid: string)
    requires Consistent(t) && UniqueNames(t)
    ensures var t' := DeleteRecordStep(t, uuid).0; Consistent(t') && UniqueNames(t')
    ensures uuid in t.records ==>
      var zone := t.records[uuid].zoneUUID;
      |RecordsOf(DeleteRecordStep(t, uuid).0.records, zone)| == |RecordsOf(t.records, zone)| - 1
  {
    if uuid in t.records {
      assert RecordOk(t, uuid);
      var zone, t' := t.records[uuid].zoneUUID, DeleteRecordStep(t, uuid).0;
      assert RecordsOf(t'.records, zone) == RecordsOf(t.records, zone) - {uuid};
      forall u | u in t'.zones ensures ZoneOk(t', u) {
        assert ZoneOk(t, u);
        assert u != zone ==> RecordsOf(t'.records, u) == RecordsOf(t.records, u);
      }
      forall u | u in t'.records ensures RecordOk(t', u) { assert RecordOk(t, u); }
      RecountKeepsUnique(t, zone, t'.zones[zone].records);
    }
  }

  /** On consistent tables, adding one to the carried count is recounting. */
  lemma CreateRecordBumps(t: Tables, r: Record)
    requires Consistent(t) && UniqueNames(t) && r.uuid !in t.records && r.zoneUUID in t.zones
    ensures
      var z := t.zones[r.zoneUUID];
      CreateRecordStep(t, r).0 == Tables(t.zones[r.zoneUUID := z.(records := Int32(z.records + 1))],
                                         t.records[r.uuid := r.(zoneName := z.name)])
  {
    assert ZoneOk(t, r.zoneUUID);
    CreateRecordKeeps(t, r);
    Int32Step(|RecordsOf(t.records, r.zoneUUID)|, 1);
  }

  lemma DeleteRecordDrops(t: Tables, uuid: string)
    requires Consistent(t) && UniqueNames(t) && uuid in t.records
    ensures
      var zone := t.records[uuid].zoneUUID;
      && zone in t.zones
      && DeleteRecordStep(t, uuid).0 ==
           Tables(t.zones[zone := t.zones[zone].(records := Int32(t.zones[zone].records - 1))], t.records - {uuid})
  {
    assert RecordOk(t, uuid) && ZoneOk(t, t.records[uuid].zoneUUID);
    DeleteRecordKeeps(t, uuid);
    Int32Step(|RecordsOf(t.records, t.records[uuid].zoneUUID)|, -1);
  }

  /** Below 2^31 records the carried count is the count itself. */
  lemma CountExactBelowWrap(t: Tables, zone: string)
    requires Consistent(t) && zone in t.zones && |RecordsOf(t.records, zone)| < 0x8000_0000
    ensures t.zones[zone].records == |RecordsOf(t.records, zone)|
  {
    assert ZoneOk(t, zone);
  }

  // ---- Lists ----

  function ZonesIn(project: string): Zone -> bool {
    (z: Zone) => project == "" || z.project == project
  }

  function RecordsIn(zone: string): Record -> bool {
    (r: Record) => zone == "" || r.zoneUUID == zone
  }

  predicate ByCreation(a: Zone, b: Zone) {
    a.createdAtNs < b.createdAtNs || (a.createdAtNs == b.createdAtNs && StringLeq(a.name, b.name))
  }

  predicate ByName(a: Record, b: Record) {
    if a.zoneName != b.zoneName then StringLeq(a.zoneName, b.zoneName)
    else if a.name != b.name then StringLeq(a.name, b.name)
    else StringLeq(a.kind, b.kind)
  }

  lemma OrdersArePreorders()
    ensures TotalPreorder(ByCreation) && TotalPreorder(ByName)
  {
    StringLeqIsTotalOrder();
    forall a, b, c | ByName(a, b) && ByName(b, c) ensures ByName(a, c) {
      if a.zoneName == c.zoneName && a.zoneName != b.zoneName { StringLeqAntisymmetric(a.zoneName, b.zoneName); }
      if a.name == c.name && a.name != b.name &&
        a.zoneName == b.zoneName == c.zoneName { StringLeqAntisymmetric(a.name, b.name); }
    }
  }
}
