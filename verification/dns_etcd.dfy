/**
 The etcd DNS store, one client at a time: zones and records under two key prefixes of one revisioned store.
 Each request is a step on the keyspace; DeleteRecord's decrement is the compare-and-swap retry loop.
 */
module DnsEtcd {
  import opened Wrappers
  import opened EtcdKV
  import opened DnsStore
  import Listing
  import opened Sets

  const MAX_ATTEMPTS := 8

  /** The on-disk keys of the two collections never meet, so each prefix scan is a map of its own. */
  function ZoneKeyText(uuid: string): string {
    "/weft/network/dns-zones/" + uuid
  }

  function RecordKeyText(uuid: string): string {
    "/weft/network/dns-records/" + uuid
  }

  lemma KeysApart(u: string, v: string)
    ensures ZoneKeyText(u) != RecordKeyText(v)
    ensures ZoneKeyText(u) == ZoneKeyText(v) ==> u == v
    ensures RecordKeyText(u) == RecordKeyText(v) ==> u == v
  {
    var p := |"/weft/network/dns-"|;
    assert ZoneKeyText(u)[p] == 'z' && RecordKeyText(v)[p] == 'r';
    assert u == ZoneKeyText(u)[|"/weft/network/dns-zones/"|..] && v == ZoneKeyText(v)[|"/weft/network/dns-zones/"|..];
    assert u == RecordKeyText(u)[|"/weft/network/dns-records/"|..] &&
      v == RecordKeyText(v)[|"/weft/network/dns-records/"|..];
  }

  /** The zone with its 32-bit count one lower. */
  function OneLess(z: Zone): Zone {
    z.(records := Int32(z.records - 1))
  }

  function ValueOf<V>(kv: KV<V>): V {
    kv.value
  }

  predicate ByCreateRev<V>(a: KV<V>, b: KV<V>) {
    a.createRev <= b.createRev
  }

  /** Rows in creation order. */
  ghost predicate InCreationOrder<V(!new)>(kvs: Keyspace<V>, keyOf: V -> string, out: seq<V>) {
    forall i, j :: 0 <= i < j < |out| ==>
      keyOf(out[i]) in kvs && keyOf(out[j]) in kvs && kvs[keyOf(out[i])].createRev <= kvs[keyOf(out[j])].createRev
  }

  /** A prefix scan sorted by create revision, filtered on the decoded value. */
  method Scan<V(!new)>(kvs: Keyspace<V>, keyOf: V -> string, keep: V -> bool) returns (out: seq<V>)
    requires forall k :: k in kvs ==> keyOf(kvs[k].value) == k
    ensures multiset(out) == multiset(Listing.Kept(Values(kvs), Values(kvs).Keys, keep))
    ensures InCreationOrder(kvs, keyOf, out)
  {
    var keepKV := (kv: KV<V>) => keep(kv.value);
    var rows := Listing.FilterSorted(kvs, keepKV, ByCreateRev);
    out := seq(|rows|, i requires 0 <= i < |rows| => rows[i].value);
    ScannedRows(kvs, keyOf, keep, keepKV, rows);
    Listing.ProjectedListing(rows, Listing.Kept(kvs, kvs.Keys, keepKV), ValueOf, out);
  }

  lemma ScannedRows<V(!new)>(kvs: Keyspace<V>, keyOf: V -> string, keep: V -> bool, keepKV: KV<V> -> bool,
    rows: seq<KV<V>>)
    requires forall k :: k in kvs ==> keyOf(kvs[k].value) == k
    requires forall kv :: keepKV(kv) == keep(kv.value)
    requires Listing.IsListing(kvs, keepKV, ByCreateRev, rows)
    ensures forall kv :: kv in rows ==> keyOf(kv.value) in kvs && kvs[keyOf(kv.value)] == kv
    ensures Listing.Image(Listing.Kept(kvs, kvs.Keys, keepKV), ValueOf) ==
      Listing.Kept(Values(kvs), Values(kvs).Keys, keep)
  {
    Listing.ListingMembers(kvs, keepKV, ByCreateRev, rows);
    forall kv | kv in rows ensures keyOf(kv.value) in kvs && kvs[keyOf(kv.value)] == kv {
      var k :| k in kvs && kvs[k] == kv;
    }
    forall v | v in Listing.Kept(Values(kvs), Values(kvs).Keys, keep)
      ensures v in Listing.Image(Listing.Kept(kvs, kvs.Keys, keepKV), ValueOf)
    {
      var k :| k in Values(kvs) && keep(Values(kvs)[k]) && Values(kvs)[k] == v;
      assert kvs[k] in Listing.Kept(kvs, kvs.Keys, keepKV) && ValueOf(kvs[k]) == v;
    }
    forall v | v in Listing.Image(Listing.Kept(kvs, kvs.Keys, keepKV), ValueOf)
      ensures v in Listing.Kept(Values(kvs), Values(kvs).Keys, keep)
    {
      var kv :| kv in Listing.Kept(kvs, kvs.Keys, keepKV) && ValueOf(kv) == v;
      var k :| k in kvs && kvs[k] == kv && keepKV(kvs[k]);
      assert Values(kvs)[k] == v;
    }
  }

  class EtcdStore {
    var rev: nat
    var zones: Keyspace<Zone>
    var records: Keyspace<Record>

    ghost function Abs(): Tables
      reads this
    {
      Tables(Values(zones), Values(records))
    }

    ghost predicate Valid()
      reads this
    {
      WellRevised(rev, zones) && WellRevised(rev, records) && Consistent(Abs()) && UniqueNames(Abs())
    }

    constructor ()
      ensures Valid() && Abs() == EMPTY_TABLES
    {
      rev, zones, records := 1, map[], map[];
    }

    method ListZones(project: string) returns (out: seq<Zone>)
      requires Valid()
      ensures multiset(out) == multiset(Listing.Kept(Values(zones), Values(zones).Keys, ZonesIn(project)))
      ensures forall z :: z in out <==>
        exists u :: u in zones && zones[u].value == z && (project == "" || z.project == project)
      ensures InCreationOrder(zones, (z: Zone) => z.uuid, out)
    {
      assert forall u :: u in zones ==> ZoneOk(Abs(), u);
      out := Scan(zones, (z: Zone) => z.uuid, ZonesIn(project));
      Listing.KeptMembers(Values(zones), ZonesIn(project), out);
      ZonesListed(zones, project, out);
    }

    method CreateZone(z: Zone) returns (result: Result<Zone, DnsError>)
      requires Valid() && z.records == 0
      modifies this
      ensures Valid()
      ensures z.uuid !in old(zones) || NameTaken(old(Abs()).zones, z.project, z.name) ==>
        (Abs(), result) == CreateZoneStep(old(Abs()), z)
      ensures z.uuid in old(zones) && !NameTaken(old(Abs()).zones, z.project, z.name) ==>
        result == Err(UuidTaken) && Abs() == old(Abs())
    {
      if z.uuid !in zones { CreateZoneKeeps(Abs(), z); }
      var taken := NameInUse(z.project, z.name);
      if taken {
        return Err(AlreadyExists);
      }
      if CreateRev(zones, z.uuid) != 0 {
        return Err(UuidTaken);
      }
      PutZone(z);
      return Ok(z);
    }

    /** The uniqueness scan. */
    method NameInUse(project: string, name: string) returns (taken: bool)
      ensures taken <==> NameTaken(Values(zones), project, name)
    {
      var left := zones.Keys;
      while left != {}
        invariant left <= zones.Keys
        invariant forall u :: u in zones.Keys - left ==>
          !(zones[u].value.project == project && zones[u].value.name == name)
        decreases left
      {
        var u :| u in left;
        if zones[u].value.project == project && zones[u].value.name == name {
          assert Values(zones)[u].name == name;
          return true;
        }
        left := left - {u};
      }
      return false;
    }

    method DeleteZone(uuid: string) returns (result: Result<(), DnsError>)
      requires Valid()
      modifies this
      ensures Valid() && (Abs(), result) == DeleteZoneStep(old(Abs()), uuid)
    {
      DeleteZoneKeeps(Abs(), uuid);
      var doomed: set<string> := {};
      var left := records.Keys;
      while left != {}
        invariant left <= records.Keys
        invariant doomed == set u | u in records.Keys - left && records[u].value.zoneUUID == uuid
        decreases left
      {
        var u :| u in left;
        if records[u].value.zoneUUID == uuid {
          doomed := doomed + {u};
        }
        left := left - {u};
      }
      assert doomed == RecordsOf(Values(records), uuid);
      if CreateRev(zones, uuid) == 0 {
        return Err(NotFound);
      }
      ValuesOfRemove(zones, uuid);
      assert Values(records - doomed) == Values(records) - doomed;
      zones, records, rev := zones - {uuid}, records - doomed, rev + 1;
      return Ok(());
    }

    method GetZone(uuid: string) returns (result: Result<Zone, DnsError>)
      requires Valid()
      ensures result == if uuid in Abs().zones then Ok(Abs().zones[uuid]) else Err(NotFound)
    {
      return if uuid in zones then Ok(zones[uuid].value) else Err(NotFound);
    }

    method ListRecords(zone: string) returns (out: seq<Record>)
      requires Valid()
      ensures multiset(out) == multiset(Listing.Kept(Values(records), Values(records).Keys, RecordsIn(zone)))
      ensures forall r :: r in out <==>
        exists u :: u in records && records[u].value == r && (zone == "" || r.zoneUUID == zone)
      ensures InCreationOrder(records, (r: Record) => r.uuid, out)
    {
      assert forall u :: u in records ==> RecordOk(Abs(), u);
      out := Scan(records, (r: Record) => r.uuid, RecordsIn(zone));
      Listing.KeptMembers(Values(records), RecordsIn(zone), out);
      RecordsListed(records, zone, out);
    }

    method CreateRecord(r: Record) returns (result: Result<Record, DnsError>)
      requires Valid()
      modifies this
      ensures Valid()
      ensures r.uuid !in old(records) || r.zoneUUID !in old(zones) ==>
        (Abs(), result) == CreateRecordStep(old(Abs()), r)
      ensures r.uuid in old(records) && r.zoneUUID in old(zones) ==> result == Err(UuidTaken) && Abs() == old(Abs())
    {
      ghost var t := Abs();
      var got := GetZone(r.zoneUUID);
      if got.Err? {
        return Err(ZoneNotFound);
      }
      var z := got.value;
      var row := r.(zoneName := z.name);
      if CreateRev(records, r.uuid) != 0 {
        return Err(UuidTaken);
      }
      CreateRecordKeeps(t, r);
      CreateRecordBumps(t, r);
      assert ZoneOk(t, r.zoneUUID);
      PutRecord(row);
      z := z.(records := Int32(z.records + 1));
      PutZone(z);
      return Ok(row);
    }

    method PutZone(z: Zone)
      requires WellRevised(rev, zones)
      modifies this`zones, this`rev
      ensures rev == old(rev) + 1 && WellRevised(rev, zones) && Values(zones) == Values(old(zones))[z.uuid := z]
    {
      ValuesOfPut(zones, z.uuid, z, rev + 1);
      zones, rev := Put(zones, z.uuid, z, rev + 1), rev + 1;
    }

    method PutRecord(r: Record)
      requires WellRevised(rev, records)
      modifies this`records, this`rev
      ensures rev == old(rev) + 1 && WellRevised(rev, records) && Values(records) == Values(old(records))[r.uuid := r]
    {
      ValuesOfPut(records, r.uuid, r, rev + 1);
      records, rev := Put(records, r.uuid, r, rev + 1), rev + 1;
    }

    method DeleteRecord(uuid: string) returns (result: Result<(), DnsError>)
      requires Valid()
      modifies this
      ensures !ReadsZero(old(Abs()), uuid) ==> Valid() && (Abs(), result) == DeleteRecordStep(old(Abs()), uuid)
      ensures ReadsZero(old(Abs()), uuid) ==>
        result == Ok(()) && Abs() == Tables(old(Abs()).zones, old(Abs()).records - {uuid}) && !Consistent(Abs())
    {
      ghost var t := Abs();
      DeleteRecordKeeps(t, uuid);
      var got := GetRecord(uuid);
      if got.Err? {
        return Err(NotFound);
      }
      var zone := got.value.zoneUUID;
      DeleteRecordDrops(t, uuid);
      if ReadsZero(t, uuid) { ZeroLeftInconsistent(t, uuid); }
      ValuesOfRemove(records, uuid);
      if uuid !in records {
        return Err(NotFound);
      }
      records, rev := records - {uuid}, rev + 1;
      DecrementZone(zone);
      return Ok(());
    }

    /** The compare-and-swap loop; with no other client the first swap commits. */
    method DecrementZone(zone: string)
      requires WellRevised(rev, zones) && zone in zones
      modifies this`zones, this`rev
      ensures old(zones)[zone].value.records == 0 ==> zones == old(zones) && rev == old(rev)
      ensures old(zones)[zone].value.records != 0 ==>
        && rev == old(rev) + 1 && WellRevised(rev, zones)
        && Values(zones) == Values(old(zones))[zone := OneLess(old(zones)[zone].value)]
    {
      var i := 0;
      var done := false;
      while i < MAX_ATTEMPTS && !done
        invariant 0 <= i <= MAX_ATTEMPTS && (i > 0 ==> done)
        invariant !done ==> zones == old(zones) && rev == old(rev)
        invariant done ==> rev == old(rev) + 1 && WellRevised(rev, zones) && old(zones)[zone].value.records != 0
        invariant done ==>
          Values(zones) == Values(old(zones))[zone := OneLess(old(zones)[zone].value)]
        decreases MAX_ATTEMPTS - i
      {
        if zone !in zones {
          break;
        }
        var seen := zones[zone];
        if seen.value.records == 0 {
          break;
        }
        var z := OneLess(seen.value);
        if ModRev(zones, zone) == seen.modRev {
          ValuesOfPut(zones, zone, z, rev + 1);
          zones, rev := Put(zones, zone, z, rev + 1), rev + 1;
          done := true;
        }
        i := i + 1;
      }
    }

    method GetRecord(uuid: string) returns (result: Result<Record, DnsError>)
      requires Valid()
      ensures result == if uuid in Abs().records then Ok(Abs().records[uuid]) else Err(NotFound)
    {
      return if uuid in records then Ok(records[uuid].value) else Err(NotFound);
    }
  }

  lemma ZonesListed(zones: Keyspace<Zone>, project: string, out: seq<Zone>)
    requires forall z :: z in out <==> exists u :: u in Values(zones) && Values(zones)[u] == z && ZonesIn(project)(z)
    ensures forall z :: z in out <==>
      exists u :: u in zones && zones[u].value == z && (project == "" || z.project == project)
  {
    forall z ensures z in out <==>
      exists u :: u in zones && zones[u].value == z && (project == "" || z.project == project) {
      if u :| u in zones && zones[u].value == z && (project == "" || z.project == project) {
        assert u in Values(zones) && Values(zones)[u] == z;
      }
    }
  }

  lemma RecordsListed(records: Keyspace<Record>, zone: string, out: seq<Record>)
    requires forall r :: r in out <==> exists u :: u in Values(records) && Values(records)[u] == r && RecordsIn(zone)(r)
    ensures forall r :: r in out <==>
      exists u :: u in records && records[u].value == r && (zone == "" || r.zoneUUID == zone)
  {
    forall r ensures r in out <==>
      exists u :: u in records && records[u].value == r && (zone == "" || r.zoneUUID == zone) {
      if u :| u in records && records[u].value == r && (zone == "" || r.zoneUUID == zone) {
        assert u in Values(records) && Values(records)[u] == r;
      }
    }
  }

  /** The record's zone carries a count of zero: only a wrap-around can bring this about. */
  ghost predicate ReadsZero(t: Tables, uuid: string) {
    uuid in t.records && t.records[uuid].zoneUUID in t.zones && t.zones[t.records[uuid].zoneUUID].records == 0
  }

  /** A zero count stays zero when a record goes, though the 32-bit count of what is left is -1. */
  lemma ZeroLeftInconsistent(t: Tables, uuid: string)
    requires Consistent(t) && UniqueNames(t) && ReadsZero(t, uuid)
    ensures !Consistent(Tables(t.zones, t.records - {uuid}))
  {
    var zone, t' := t.records[uuid].zoneUUID, Tables(t.zones, t.records - {uuid});
    assert ZoneOk(t, zone);
    DeleteRecordKeeps(t, uuid);
    assert RecordsOf(t'.records, zone) == RecordsOf(DeleteRecordStep(t, uuid).0.records, zone);
    Int32Step(|RecordsOf(t.records, zone)|, -1);
    assert !ZoneOk(t', zone);
  }

  /** A zone with a live record has a non-zero carried count while fewer than 2^32 records exist. */
  lemma CountFits(records: Keyspace<Record>, zone: string, uuid: string)
    requires uuid in records && records[uuid].value.zoneUUID == zone && |records| < 0x1_0000_0000
    ensures Int32(|RecordsOf(Values(records), zone)|) != 0
  {
    var mine := RecordsOf(Values(records), zone);
    assert uuid in mine;
    assert mine <= records.Keys;
    SubsetSize(mine, records.Keys);
    assert |records.Keys| == |records|;
  }
}
