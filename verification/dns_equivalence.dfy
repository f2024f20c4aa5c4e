/** The two DNS stores side by side: any sequence of operations gets the same answers from both. */
module DnsEquivalence {
  import opened Wrappers
  import opened DnsStore
  import opened CompoundKey
  import DnsMemory
  import DnsEtcd
  import Listing
  import opened Sets

  datatype Op =
    | ListZones(project: string)
    | CreateZone(z: Zone)
    | DeleteZone(uuid: string)
    | GetZone(uuid: string)
    | ListRecords(zone: string)
    | CreateRecord(r: Record)
    | DeleteRecord(uuid: string)
    | GetRecord(uuid: string)

  datatype Response =
    | Zones(zones: seq<Zone>)
    | Records(records: seq<Record>)
    | OneZone(zone: Result<Zone, DnsError>)
    | OneRecord(record: Result<Record, DnsError>)
    | Done(result: Result<(), DnsError>)

  /** Equal answers; lists are equal up to order, since the stores sort them differently. */
  ghost predicate Alike(a: Response, b: Response) {
    match (a, b)
    case (Zones(x), Zones(y)) => multiset(x) == multiset(y)
    case (Records(x), Records(y)) => multiset(x) == multiset(y)
    case _ => a == b
  }

  /** What callers guarantee: new rows have fresh uuids, new zones no records yet, projects no bar. */
  ghost predicate WellFormed(ops: seq<Op>) {
    && |ops| < 0x1_0000_0000
    && (forall i :: 0 <= i < |ops| && ops[i].CreateZone? ==> ops[i].z.records == 0 && BarFree(ops[i].z.project))
    && (forall i, j :: 0 <= i < j < |ops| && ops[i].CreateZone? && ops[j].CreateZone? ==>
      ops[i].z.uuid != ops[j].z.uuid)
    && (forall i, j :: 0 <= i < j < |ops| && ops[i].CreateRecord? && ops[j].CreateRecord? ==>
      ops[i].r.uuid != ops[j].r.uuid)
  }

  ghost function ZonesCreated(ops: seq<Op>): set<string> {
    set i | 0 <= i < |ops| && ops[i].CreateZone? :: ops[i].z.uuid
  }

  ghost function RecordsCreated(ops: seq<Op>): set<string> {
    set i | 0 <= i < |ops| && ops[i].CreateRecord? :: ops[i].r.uuid
  }

  /** The tables hold only rows the operations so far created, and no more records than operations. */
  ghost predicate Bounded(t: Tables, ops: seq<Op>) {
    t.zones.Keys <= ZonesCreated(ops) && t.records.Keys <= RecordsCreated(ops) && |t.records| <= |ops|
  }

  ghost function TableStep(t: Tables, op: Op): Tables {
    match op
    case CreateZone(z) => CreateZoneStep(t, z).0
    case DeleteZone(uuid) => DeleteZoneStep(t, uuid).0
    case CreateRecord(r) => CreateRecordStep(t, r).0
    case DeleteRecord(uuid) => DeleteRecordStep(t, uuid).0
    case _ => t
  }

  /** The tables after a sequence of operations from empty. */
  ghost function TablesAfter(ops: seq<Op>): Tables {
    if ops == [] then EMPTY_TABLES else TableStep(TablesAfter(ops[..|ops| - 1]), ops[|ops| - 1])
  }

  lemma CreatedStep(ops: seq<Op>, i: int)
    requires 0 <= i < |ops|
    ensures ZonesCreated(ops[..i + 1]) == ZonesCreated(ops[..i]) + NewZone(ops[i])
    ensures RecordsCreated(ops[..i + 1]) == RecordsCreated(ops[..i]) + NewRecord(ops[i])
  {
    var a, b := ops[..i], ops[..i + 1];
    forall u | u in ZonesCreated(a) ensures u in ZonesCreated(b) {
      var k :| 0 <= k < |a| && a[k].CreateZone? && a[k].z.uuid == u;
      assert b[k] == a[k];
    }
    forall u | u in RecordsCreated(a) ensures u in RecordsCreated(b) {
      var k :| 0 <= k < |a| && a[k].CreateRecord? && a[k].r.uuid == u;
      assert b[k] == a[k];
    }
    assert b[i] == ops[i];
  }

  ghost function NewZone(op: Op): set<string> {
    if op.CreateZone? then {op.z.uuid} else {}
  }

  ghost function NewRecord(op: Op): set<string> {
    if op.CreateRecord? then {op.r.uuid} else {}
  }

  lemma StepZones(t: Tables, op: Op)
    requires Consistent(t)
    ensures TableStep(t, op).zones.Keys <= t.zones.Keys + NewZone(op)
  {
    match op
    case CreateRecord(r) => if r.zoneUUID in t.zones { assert ZoneOk(t, r.zoneUUID); }
    case _ =>
  }

  lemma StepRecords(t: Tables, op: Op)
    ensures TableStep(t, op).records.Keys <= t.records.Keys + NewRecord(op)
  {}

  lemma StepSize(t: Tables, op: Op)
    ensures |TableStep(t, op).records| <= |t.records| + 1
  {
    var keys := TableStep(t, op).records.Keys;
    StepRecords(t, op);
    SubsetSize(keys, t.records.Keys + NewRecord(op));
    SubsetSize(NewRecord(op) - t.records.Keys, NewRecord(op));
    assert t.records.Keys + NewRecord(op) == t.records.Keys + (NewRecord(op) - t.records.Keys);
    assert |keys| == |TableStep(t, op).records| && |t.records.Keys| == |t.records|;
  }

  lemma StepBounded(t: Tables, ops: seq<Op>, i: int)
    requires 0 <= i < |ops| && Bounded(t, ops[..i]) && Consistent(t)
    ensures Bounded(TableStep(t, ops[i]), ops[..i + 1])
  {
    CreatedStep(ops, i);
    StepZones(t, ops[i]);
    StepRecords(t, ops[i]);
    StepSize(t, ops[i]);
  }

  lemma NextIsFresh(t: Tables, ops: seq<Op>, i: int)
    requires 0 <= i < |ops| && WellFormed(ops) && Bounded(t, ops[..i])
    ensures ops[i].CreateZone? ==> ops[i].z.uuid !in t.zones
    ensures ops[i].CreateRecord? ==> ops[i].r.uuid !in t.records
    ensures |t.records| < 0x1_0000_0000
  {}

  method OnMemory(m: DnsMemory.MemoryStore, op: Op) returns (a: Response)
    requires m.Valid() && DnsMemory.BarFreeZones(m.zones)
    requires op.CreateZone? ==> op.z.uuid !in m.zones && op.z.records == 0 && BarFree(op.z.project)
    requires op.CreateRecord? ==> op.r.uuid !in m.records
    modifies m
    ensures m.Valid() && m.Abs() == TableStep(old(m.Abs()), op) && Answers(old(m.Abs()), op, a)
  {
    match op
    case ListZones(project) => var out := m.ListZones(project); a := Zones(out);
    case CreateZone(z) => var r := m.CreateZone(z); a := OneZone(r);
    case DeleteZone(uuid) => var r := m.DeleteZone(uuid); a := Done(r);
    case GetZone(uuid) => var r := m.GetZone(uuid); a := OneZone(r);
    case ListRecords(zone) => var out := m.ListRecords(zone); a := Records(out);
    case CreateRecord(r) => var x := m.CreateRecord(r); a := OneRecord(x);
    case DeleteRecord(uuid) => var r := m.DeleteRecord(uuid); a := Done(r);
    case GetRecord(uuid) => var r := m.GetRecord(uuid); a := OneRecord(r);
  }

  method OnEtcd(e: DnsEtcd.EtcdStore, op: Op) returns (a: Response)
    requires e.Valid() && |e.records| < 0x1_0000_0000
    requires op.CreateZone? ==> op.z.uuid !in e.zones && op.z.records == 0
    requires op.CreateRecord? ==> op.r.uuid !in e.records
    modifies e
    ensures e.Valid() && e.Abs() == TableStep(old(e.Abs()), op) && Answers(old(e.Abs()), op, a)
  {
    match op
    case ListZones(project) => var out := e.ListZones(project); a := Zones(out);
    case CreateZone(z) => var r := e.CreateZone(z); a := OneZone(r);
    case DeleteZone(uuid) => var r := e.DeleteZone(uuid); a := Done(r);
    case GetZone(uuid) => var r := e.GetZone(uuid); a := OneZone(r);
    case ListRecords(zone) => var out := e.ListRecords(zone); a := Records(out);
    case CreateRecord(r) => var x := e.CreateRecord(r); a := OneRecord(x);
    case DeleteRecord(uuid) =>
      if uuid in e.records {
        assert RecordOk(e.Abs(), uuid) && ZoneOk(e.Abs(), e.records[uuid].value.zoneUUID);
        DnsEtcd.CountFits(e.records, e.records[uuid].value.zoneUUID, uuid);
      }
      var r := e.DeleteRecord(uuid);
      a := Done(r);
    case GetRecord(uuid) => var r := e.GetRecord(uuid); a := OneRecord(r);
  }

  /** a is the sequential store's answer to op on t, a list being fixed up to order. */
  ghost predicate Answers(t: Tables, op: Op, a: Response) {
    match op
    case ListZones(project) => a.Zones? &&
      multiset(a.zones) == multiset(Listing.Kept(t.zones, t.zones.Keys, ZonesIn(project)))
    case CreateZone(z) => a == OneZone(CreateZoneStep(t, z).1)
    case DeleteZone(uuid) => a == Done(DeleteZoneStep(t, uuid).1)
    case GetZone(uuid) => a == OneZone(if uuid in t.zones then Ok(t.zones[uuid]) else Err(NotFound))
    case ListRecords(zone) => a.Records? &&
      multiset(a.records) == multiset(Listing.Kept(t.records, t.records.Keys, RecordsIn(zone)))
    case CreateRecord(r) => a == OneRecord(CreateRecordStep(t, r).1)
    case DeleteRecord(uuid) => a == Done(DeleteRecordStep(t, uuid).1)
    case GetRecord(uuid) => a == OneRecord(if uuid in t.records then Ok(t.records[uuid]) else Err(NotFound))
  }

  lemma SameTableSameAnswer(t: Tables, op: Op, a: Response, b: Response)
    requires Answers(t, op, a) && Answers(t, op, b)
    ensures Alike(a, b)
  {}

  /** One operation on both stores. */
  method OnBoth(m: DnsMemory.MemoryStore, e: DnsEtcd.EtcdStore, op: Op) returns (a: Response, b: Response)
    requires m.Valid() && e.Valid() && m.Abs() == e.Abs() && |m.records| < 0x1_0000_0000 &&
      DnsMemory.BarFreeZones(m.zones)
    requires op.CreateZone? ==> op.z.uuid !in m.zones && op.z.records == 0 && BarFree(op.z.project)
    requires op.CreateRecord? ==> op.r.uuid !in m.records
    modifies m, e
    ensures m.Valid() && e.Valid() && m.Abs() == e.Abs() == TableStep(old(m.Abs()), op)
    ensures Alike(a, b) && Answers(old(m.Abs()), op, a) && Answers(old(m.Abs()), op, b)
  {
    ghost var t := m.Abs();
    assert e.zones.Keys == t.zones.Keys && e.records.Keys == t.records.Keys;
    assert |e.records.Keys| == |e.records| && |t.records.Keys| == |t.records|;
    a := OnMemory(m, op);
    b := OnEtcd(e, op);
    SameTableSameAnswer(t, op, a, b);
  }

  /** The answers to the i-th operation are alike, and are the sequential store's on the tables built so far. */
  ghost predicate Agreed(ops: seq<Op>, i: nat, a: Response, b: Response)
    requires i < |ops|
  {
    Alike(a, b) && Answers(TablesAfter(ops[..i]), ops[i], a) && Answers(TablesAfter(ops[..i]), ops[i], b)
  }

  lemma TablesAfterStep(ops: seq<Op>, i: nat)
    requires i < |ops|
    ensures TablesAfter(ops[..i + 1]) == TableStep(TablesAfter(ops[..i]), ops[i])
  {
    assert ops[..i + 1][..i] == ops[..i];
  }

  /** Before step i both stores hold the tables built so far, and the next operation's rows are fresh. */
  ghost predicate Ready(ops: seq<Op>, i: nat, t: Tables)
    requires i <= |ops|
  {
    t == TablesAfter(ops[..i]) && Bounded(t, ops[..i]) && Consistent(t) && DnsMemory.BarFreeZones(t.zones)
  }

  lemma StepBarFree(t: Tables, op: Op)
    requires Consistent(t) && DnsMemory.BarFreeZones(t.zones) && (op.CreateZone? ==> BarFree(op.z.project))
    ensures DnsMemory.BarFreeZones(TableStep(t, op).zones)
  {
    match op
    case CreateRecord(r) => if r.zoneUUID in t.zones { assert ZoneOk(t, r.zoneUUID); }
    case _ =>
  }

  lemma ReadyStep(ops: seq<Op>, i: nat, t: Tables)
    requires i < |ops| && WellFormed(ops) && Ready(ops, i, t) && Consistent(TableStep(t, ops[i]))
    ensures Ready(ops, i + 1, TableStep(t, ops[i]))
  {
    StepBounded(t, ops, i);
    TablesAfterStep(ops, i);
    StepBarFree(t, ops[i]);
  }

  /** The next operation on both stores. */
  method OneStep(m: DnsMemory.MemoryStore, e: DnsEtcd.EtcdStore, ops: seq<Op>, i: nat)
    returns (a: Response, b: Response)
    requires WellFormed(ops) && i < |ops|
    requires m.Valid() && e.Valid() && m.Abs() == e.Abs() && Ready(ops, i, m.Abs())
    modifies m, e
    ensures m.Valid() && e.Valid() && m.Abs() == e.Abs() && Ready(ops, i + 1, m.Abs())
    ensures Agreed(ops, i, a, b)
  {
    ghost var t := m.Abs();
    NextIsFresh(t, ops, i);
    a, b := OnBoth(m, e, ops[i]);
    ReadyStep(ops, i, t);
  }

  /** Both stores have agreed on the first n operations. */
  ghost predicate AgreedUpTo(ops: seq<Op>, n: nat, memory: seq<Response>, etcd: seq<Response>) {
    && n == |memory| == |etcd| <= |ops|
    && forall i {:trigger Agreed(ops, i, memory[i], etcd[i])} :: 0 <= i < n ==> Agreed(ops, i, memory[i], etcd[i])
  }

  lemma AgreedAppend(ops: seq<Op>, n: nat, memory: seq<Response>, etcd: seq<Response>, a: Response, b: Response)
    requires n < |ops| && AgreedUpTo(ops, n, memory, etcd) && Agreed(ops, n, a, b)
    ensures AgreedUpTo(ops, n + 1, memory + [a], etcd + [b])
  {}

  method CompareOn(m: DnsMemory.MemoryStore, e: DnsEtcd.EtcdStore, ops: seq<Op>)
    returns (memory: seq<Response>, etcd: seq<Response>)
    requires WellFormed(ops)
    requires m.Valid() && e.Valid() && m.Abs() == e.Abs() && Ready(ops, 0, m.Abs())
    modifies m, e
    ensures AgreedUpTo(ops, |ops|, memory, etcd)
  {
    memory, etcd := [], [];
    for i := 0 to |ops|
      invariant m.Valid() && e.Valid() && m.Abs() == e.Abs() && Ready(ops, i, m.Abs())
      invariant AgreedUpTo(ops, i, memory, etcd)
    {
      var a, b := OneStep(m, e, ops, i);
      AgreedAppend(ops, i, memory, etcd, a, b);
      memory, etcd := memory + [a], etcd + [b];
    }
  }

  /**
   Observational equivalence: run any operations on both stores from empty; every pair of answers is alike, and
   each answer is the sequential store's on the tables built so far.
   */
  method Compare(ops: seq<Op>) returns (memory: seq<Response>, etcd: seq<Response>)
    requires WellFormed(ops)
    ensures |memory| == |etcd| == |ops|
    ensures forall i :: 0 <= i < |ops| ==> Agreed(ops, i, memory[i], etcd[i])
  {
    var m := new DnsMemory.MemoryStore();
    var e := new DnsEtcd.EtcdStore();
    memory, etcd := CompareOn(m, e, ops);
  }
}
