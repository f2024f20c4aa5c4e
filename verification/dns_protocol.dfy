/**
 The etcd DNS store under concurrency. Every DeleteRecord, DeleteZone and CreateRecord call is a program counter
 plus what it last read; any number of calls interleave one etcd request at a time, and any request may fail before
 or after taking effect. This file has the steps and what every schedule keeps; counts and foreign keys, which some
 schedules break, are in files of their own. Counts are below 2^31, so the 32-bit arithmetic does not wrap.
 */
module DnsProtocol {
  import opened Wrappers
  import opened EtcdKV
  import opened DnsStore
  import opened Sets

  const MAX_ATTEMPTS := 8

  datatype Op = DeleteRecord(uuid: string) | DeleteZone(uuid: string) | CreateRecord(r: Record)

  datatype Outcome =
    | NotFound
    | Decremented(zone: string)   // the record is gone and the zone's count was decremented
    | ZoneGone                    // the record is gone, and so was its zone
    | ZeroCount(zone: string)     // the record is gone; the count read as zero and was left alone
    | GaveUp(zone: string)        // the record is gone; every attempt to decrement lost its race
    | Lost(zone: string)          // the record is gone; a transport error ended the call before a decrement
    | ZoneRemoved                 // the zone is gone, whether or not the reply arrived
    | NoZone
    | UuidTaken
    | Created
    | Unbumped(zone: string)      // the record is stored; a transport error kept its zone's count as it was
    | Failed                      // a transport error before anything was written

  datatype PC =
    | ReadRecord
    | RemoveRecord(zone: string)
    | ReadZone(attempt: nat, zone: string)
    | SwapZone(attempt: nat, zone: string, modRev: nat, z: Zone)
    | ListForCascade
    | Cascade(doomed: set<string>)
    | ReadForCreate
    | PutRecord(zone: string, modRev: nat, z: Zone)
    | PutZone(zone: string, modRev: nat, z: Zone)
    | Done(outcome: Outcome)

  /** rivals: the other calls that wrote this call's zone while it was trying to decrement it. */
  datatype Call = Call(op: Op, pc: PC, rivals: set<nat>)

  /** usedZones, usedRecords: uuids ever given out. born: uuids of the records ever stored. */
  datatype System = System(
    rev: nat, zones: Keyspace<Zone>, records: Keyspace<Record>, calls: map<nat, Call>,
    usedZones: set<string>, usedRecords: set<string>, born: set<string>)

  datatype Action =
    | Invoke(id: nat, op: Op)
    | Advance(id: nat)     // the call's next request, answered
    | Abort(id: nat)       // the next request fails before taking effect
    | LoseReply(id: nat)   // the next request takes effect and its reply is lost
    | CreateZone(z: Zone)

  /** What a request does to the store. */
  datatype Effect =
    | Nothing
    | Drop(uuid: string)
    | Store(row: Record)
    | SetZone(zone: string, z: Zone)
    | Cascaded(zone: string, doomed: set<string>)

  // ---- Steps ----

  /** The call has removed its record and is still trying to decrement zone's count. */
  predicate Pending(pc: PC, zone: string) {
    match pc
    case ReadZone(_, z) => z == zone
    case SwapZone(_, z, _, _) => z == zone
    case _ => false
  }

  function Wrote(e: Effect): Option<string> {
    match e
    case SetZone(zone, _) => Some(zone)
    case Cascaded(zone, _) => Some(zone)
    case _ => None
  }

  /** Every call trying to decrement the written zone meets rival id. */
  function Meet(calls: map<nat, Call>, id: nat, wrote: Option<string>): map<nat, Call> {
    map i | i in calls ::
      if wrote.Some? && Pending(calls[i].pc, wrote.value) && i != id then calls[i].(rivals := calls[i].rivals + {id})
        else calls[i]
  }

  function ZonesAfter(s: System, e: Effect): Keyspace<Zone> {
    match e
    case SetZone(zone, z) => Put(s.zones, zone, z, s.rev + 1)
    case Cascaded(zone, _) => s.zones - {zone}
    case _ => s.zones
  }

  function RecordsAfter(s: System, e: Effect): Keyspace<Record> {
    match e
    case Drop(u) => s.records - {u}
    case Store(row) => Put(s.records, row.uuid, row, s.rev + 1)
    case Cascaded(_, doomed) => s.records - doomed
    case _ => s.records
  }

  function Apply(s: System, id: nat, pc: PC, e: Effect): System
    requires id in s.calls
  {
    System(if e.Nothing? then s.rev else s.rev + 1, ZonesAfter(s, e), RecordsAfter(s, e),
           Meet(s.calls, id, Wrote(e))[id := s.calls[id].(pc := pc)],
           s.usedZones, s.usedRecords, if e.Store? then s.born + {e.row.uuid} else s.born)
  }

  /** The call's next request: where it leads and what it does. */
  ghost function Decide(s: System, c: Call): (PC, Effect) {
    match c.pc
    case ReadRecord =>
      if c.op.DeleteRecord? && c.op.uuid in s.records then (RemoveRecord(s.records[c.op.uuid].value.zoneUUID), Nothing)
      else (Done(Outcome.NotFound), Nothing)
    case RemoveRecord(zone) =>
      if c.op.DeleteRecord? && c.op.uuid in s.records then (ReadZone(0, zone), Drop(c.op.uuid))
      else (Done(Outcome.NotFound), Nothing)
    case ReadZone(attempt, zone) =>
      if zone !in s.zones then (Done(ZoneGone), Nothing)
      else if s.zones[zone].value.records == 0 then (Done(ZeroCount(zone)), Nothing)
      else
        var z := s.zones[zone].value;
        (SwapZone(attempt, zone, s.zones[zone].modRev, z.(records := z.records - 1)), Nothing)
    case SwapZone(attempt, zone, modRev, z) =>
      if ModRev(s.zones, zone) == modRev then (Done(Decremented(zone)), SetZone(zone, z))
      else if attempt + 1 < MAX_ATTEMPTS then (ReadZone(attempt + 1, zone), Nothing)
      else (Done(GaveUp(zone)), Nothing)
    case ListForCascade =>
      if c.op.DeleteZone? then (Cascade(Live(s.records, c.op.uuid)), Nothing) else (c.pc, Nothing)
    case Cascade(doomed) =>
      if c.op.DeleteZone? && CreateRev(s.zones, c.op.uuid) != 0 then (Done(ZoneRemoved), Cascaded(c.op.uuid, doomed))
      else (Done(Outcome.NotFound), Nothing)
    case ReadForCreate =>
      if c.op.CreateRecord? && c.op.r.zoneUUID in s.zones then
        var kv := s.zones[c.op.r.zoneUUID];
        (PutRecord(kv.value.uuid, kv.modRev, kv.value), Nothing)
      else (Done(NoZone), Nothing)
    case PutRecord(zone, modRev, z) =>
      if c.op.CreateRecord? && CreateRev(s.records, c.op.r.uuid) == 0 then
        (PutZone(zone, modRev, z), Store(c.op.r.(zoneName := z.name)))
      else (Done(Outcome.UuidTaken), Nothing)
    case PutZone(zone, _, z) => (Done(Created), SetZone(zone, z.(records := z.records + 1)))
    case Done(_) => (c.pc, Nothing)
  }

  /** Where a call ends when its request fails before taking effect. */
  function AbortedPc(pc: PC): PC {
    match pc
    case ReadZone(_, zone) => Done(Lost(zone))
    case SwapZone(_, zone, _, _) => Done(Lost(zone))
    case PutZone(zone, _, _) => Done(Unbumped(zone))
    case Done(_) => pc
    case _ => Done(Failed)
  }

  /** Where it ends when the request took effect but the reply is lost: the zone puts ignore their error. */
  function LostPc(pc: PC, e: Effect, next: PC): PC {
    match e
    case Nothing => AbortedPc(pc)
    case Drop(_) => if pc.RemoveRecord? then Done(Lost(pc.zone)) else next
    case Store(_) => if pc.PutRecord? then Done(Unbumped(pc.zone)) else next
    case _ => next
  }

  function Start(op: Op): PC {
    match op
    case DeleteRecord(_) => ReadRecord
    case DeleteZone(_) => ListForCascade
    case CreateRecord(_) => ReadForCreate
  }

  function Enter(s: System, id: nat, op: Op): System {
    s.(calls := s.calls[id := Call(op, Start(op), {})],
       usedRecords := if op.CreateRecord? then s.usedRecords + {op.r.uuid} else s.usedRecords)
  }

  function AddZone(s: System, z: Zone): System {
    s.(rev := s.rev + 1, zones := Put(s.zones, z.uuid, z, s.rev + 1), usedZones := s.usedZones + {z.uuid})
  }

  /** The acting call's next program counter and effect. */
  ghost function StepOf(s: System, a: Action): (PC, Effect)
    requires a.Advance? || a.Abort? || a.LoseReply?
    requires a.id in s.calls
  {
    var c := s.calls[a.id];
    var d := Decide(s, c);
    match a
    case Advance(_) => d
    case Abort(_) => (AbortedPc(c.pc), Nothing)
    case LoseReply(_) => (LostPc(c.pc, d.1, d.0), d.1)
  }

  predicate Moves(s: System, a: Action) {
    (a.Advance? || a.Abort? || a.LoseReply?) && a.id in s.calls && !s.calls[a.id].pc.Done?
  }

  /** New rows get fresh uuids and new zones no records; actions that are not possible do nothing. */
  ghost function Next(s: System, a: Action): System {
    match a
    case Invoke(id, op) =>
      if id !in s.calls && (op.CreateRecord? ==> op.r.uuid !in s.usedRecords) then Enter(s, id, op) else s
    case CreateZone(z) => if z.uuid !in s.usedZones && z.records == 0 then AddZone(s, z) else s
    case _ => if Moves(s, a) then Apply(s, a.id, StepOf(s, a).0, StepOf(s, a).1) else s
  }

  ghost function Run(s: System, acts: seq<Action>): System {
    if acts == [] then s else Next(Run(s, acts[..|acts| - 1]), acts[|acts| - 1])
  }

  // ---- What every schedule keeps ----

  ghost function Live(records: Keyspace<Record>, zone: string): set<string> {
    set u | u in records && records[u].value.zoneUUID == zone
  }

  /** The call won the race to remove its record. */
  predicate Removed(c: Call) {
    match c.pc
    case ReadZone(_, _) => true
    case SwapZone(_, _, _, _) => true
    case Done(o) => o.Decremented? || o.ZoneGone? || o.ZeroCount? || o.GaveUp? || o.Lost?
    case _ => false
  }

  predicate WroteZone(c: Call, zone: string) {
    || c.pc == Done(Decremented(zone))
    || (c.pc == Done(ZoneRemoved) && c.op == DeleteZone(zone))
    || (c.pc == Done(Created) && c.op.CreateRecord? && c.op.r.zoneUUID == zone)
  }

  /** j is another call, and it wrote this very zone. */
  ghost predicate IsRival(s: System, id: nat, j: nat, zone: string) {
    j != id && j in s.calls && WroteZone(s.calls[j], zone)
  }

  /** The zone whose write races this call has lost, if it has any to show. */
  function Contested(c: Call): Option<string> {
    match c.pc
    case ReadZone(_, zone) => Some(zone)
    case SwapZone(_, zone, _, _) => Some(zone)
    case Done(GaveUp(zone)) => Some(zone)
    case _ => None
  }

  /** What a call read at revision modRev: still the current value if the revision is. */
  ghost predicate ReadAt(s: System, zone: string, modRev: nat, z: Zone) {
    && zone in s.usedZones && 1 <= modRev <= s.rev && z.uuid == zone && z.records >= 0
    && (ModRev(s.zones, zone) == modRev ==> zone in s.zones && s.zones[zone].value == z)
  }

  ghost predicate PcOk(s: System, c: Call) {
    match c.pc
    case ReadRecord => c.op.DeleteRecord? && c.rivals == {}
    case RemoveRecord(zone) =>
      && c.op.DeleteRecord? && c.rivals == {} && zone in s.usedZones && c.op.uuid in s.born
      && (c.op.uuid in s.records ==> s.records[c.op.uuid].value.zoneUUID == zone)
    case ReadZone(attempt, zone) => attempt < MAX_ATTEMPTS && attempt <= |c.rivals| && zone in s.usedZones
    case SwapZone(attempt, zone, modRev, z) =>
      && attempt < MAX_ATTEMPTS && attempt <= |c.rivals| && ReadAt(s, zone, modRev, z.(records := z.records + 1))
      && z.records >= 0 && (ModRev(s.zones, zone) != modRev ==> attempt + 1 <= |c.rivals|)
    case ListForCascade => c.op.DeleteZone?
    case Cascade(doomed) => c.op.DeleteZone? && doomed <= s.born && OnlyOf(s.records, doomed, c.op.uuid)
    case ReadForCreate => c.op.CreateRecord? && c.op.r.uuid !in s.born
    case PutRecord(zone, modRev, z) =>
      c.op.CreateRecord? && c.op.r.uuid !in s.born && zone == c.op.r.zoneUUID && ReadAt(s, zone, modRev, z)
    case PutZone(zone, modRev, z) => c.op.CreateRecord? && zone == c.op.r.zoneUUID && ReadAt(s, zone, modRev, z)
    case Done(GaveUp(zone)) => MAX_ATTEMPTS <= |c.rivals| && zone in s.usedZones
    case Done(Lost(zone)) => zone in s.usedZones
    case Done(ZeroCount(zone)) => zone in s.usedZones
    case Done(Unbumped(zone)) => zone in s.usedZones
    case Done(_) => true
  }

  ghost predicate OnlyOf(records: Keyspace<Record>, uuids: set<string>, zone: string) {
    forall u :: u in uuids && u in records ==> records[u].value.zoneUUID == zone
  }

  ghost predicate CallOk(s: System, id: nat)
    requires id in s.calls
  {
    var c := s.calls[id];
    && PcOk(s, c)
    && (Removed(c) ==> c.op.DeleteRecord? && c.op.uuid in s.born && c.op.uuid !in s.records)
    && (c.op.CreateRecord? ==> c.op.r.uuid in s.usedRecords)
    && (Contested(c).Some? ==> forall j {:trigger IsRival(s, id, j, Contested(c).value)} :: j in c.rivals ==>
      IsRival(s, id, j, Contested(c).value))
  }

  /** At most one call ever wins the removal of a record, and no two create the same one. */
  ghost predicate Apart(s: System, i: nat, j: nat)
    requires i in s.calls && j in s.calls
  {
    i != j ==>
      && (Removed(s.calls[i]) && Removed(s.calls[j]) ==> s.calls[i].op != s.calls[j].op)
      && (s.calls[i].op.CreateRecord? && s.calls[j].op.CreateRecord? ==> s.calls[i].op.r.uuid != s.calls[j].op.r.uuid)
  }

  ghost predicate ZoneOk(s: System, z: string)
    requires z in s.zones
  {
    z in s.usedZones && s.zones[z].value.uuid == z && s.zones[z].value.records >= 0
  }

  ghost predicate RecordOk(s: System, u: string)
    requires u in s.records
  {
    u in s.born && s.records[u].value.zoneUUID in s.usedZones
  }

  ghost predicate StoreOk(s: System) {
    && WellRevised(s.rev, s.zones) && WellRevised(s.rev, s.records) && s.born <= s.usedRecords
    && (forall z {:trigger ZoneOk(s, z)} :: z in s.zones ==> ZoneOk(s, z))
    && (forall u {:trigger RecordOk(s, u)} :: u in s.records ==> RecordOk(s, u))
  }

  ghost predicate Shape(s: System) {
    && StoreOk(s)
    && (forall i {:trigger CallOk(s, i)} :: i in s.calls ==> CallOk(s, i))
    && (forall i, j {:trigger Apart(s, i, j)} :: i in s.calls && j in s.calls ==> Apart(s, i, j))
  }

  /** What a request may do to the store without upsetting the other calls. */
  ghost predicate EffectOk(s: System, c: Call, pc: PC, e: Effect) {
    match e
    case Nothing => true
    case Drop(u) => c.op == DeleteRecord(u) && u in s.records
    case Store(row) =>
      c.op.CreateRecord? && row.uuid == c.op.r.uuid && row.uuid !in s.born && row.uuid in s.usedRecords
      && row.zoneUUID in s.usedZones
    case SetZone(zone, z) => z.uuid == zone && z.records >= 0 && zone in s.usedZones && WroteZone(c.(pc := pc), zone)
    case Cascaded(zone, doomed) =>
      doomed <= s.born && OnlyOf(s.records, doomed, zone) && WroteZone(c.(pc := pc), zone)
  }

  lemma StoreKept(s: System, id: nat, pc: PC, e: Effect)
    requires Shape(s) && id in s.calls && EffectOk(s, s.calls[id], pc, e)
    ensures StoreOk(Apply(s, id, pc, e))
  {
    var s' := Apply(s, id, pc, e);
    forall z | z in s'.zones ensures ZoneOk(s', z) {
      if e.SetZone? && e.zone == z {} else { assert ZoneOk(s, z); }
    }
    forall u | u in s'.records ensures RecordOk(s', u) {
      if e.Store? && e.row.uuid == u {} else { assert RecordOk(s, u); }
    }
  }

  /** A call that meets a rival has one more to show for its next loss. */
  lemma OtherKept(s: System, id: nat, pc: PC, e: Effect, i: nat)
    requires Shape(s) && id in s.calls && i in s.calls && i != id && !s.calls[id].pc.Done?
    requires EffectOk(s, s.calls[id], pc, e)
    ensures CallOk(Apply(s, id, pc, e), i)
  {
    assert CallOk(s, i) && Apart(s, i, id);
    var s' := Apply(s, id, pc, e);
    var c, c' := s.calls[i], s'.calls[i];
    if Contested(c).Some? {
      var zone := Contested(c).value;
      assert id in c.rivals ==> IsRival(s, i, id, zone);
      assert id !in c.rivals;
      forall j | j in c'.rivals ensures IsRival(s', i, j, zone) {
        if j != id { assert IsRival(s, i, j, zone); }
      }
      if c'.rivals != c.rivals { assert |c'.rivals| == |c.rivals| + 1; }
    }
    OtherPcKept(s, id, pc, e, i);
  }

  lemma OtherPcKept(s: System, id: nat, pc: PC, e: Effect, i: nat)
    requires Shape(s) && id in s.calls && i in s.calls && i != id && CallOk(s, i) && Apart(s, i, id)
    requires EffectOk(s, s.calls[id], pc, e)
    requires Contested(s.calls[i]).Some? ==> id !in s.calls[i].rivals
    ensures PcOk(Apply(s, id, pc, e), Apply(s, id, pc, e).calls[i])
  {
    var s' := Apply(s, id, pc, e);
    var c, c' := s.calls[i], s'.calls[i];
    if c'.rivals != c.rivals { assert |c'.rivals| == |c.rivals| + 1; }
    match c.pc
    case SwapZone(_, zone, modRev, z) => ReadKept(s, id, pc, e, zone, modRev, z.(records := z.records + 1));
    case PutRecord(zone, modRev, z) => ReadKept(s, id, pc, e, zone, modRev, z);
    case PutZone(zone, modRev, z) => ReadKept(s, id, pc, e, zone, modRev, z);
    case _ =>
  }

  lemma ReadKept(s: System, id: nat, pc: PC, e: Effect, zone: string, modRev: nat, z: Zone)
    requires id in s.calls && ReadAt(s, zone, modRev, z)
    ensures ReadAt(Apply(s, id, pc, e), zone, modRev, z)
  {}

  lemma ApartKept(s: System, id: nat, pc: PC, e: Effect)
    requires Shape(s) && id in s.calls
    requires Removed(s.calls[id].(pc := pc)) && !Removed(s.calls[id]) ==>
      s.calls[id].op.DeleteRecord? && s.calls[id].op.uuid in s.records
    ensures
      var s' := Apply(s, id, pc, e);
      forall i, j {:trigger Apart(s', i, j)} :: i in s'.calls && j in s'.calls ==> Apart(s', i, j)
  {
    var s' := Apply(s, id, pc, e);
    forall i, j | i in s'.calls && j in s'.calls ensures Apart(s', i, j) {
      assert Apart(s, i, j) && CallOk(s, i) && CallOk(s, j);
    }
  }

  /** One call takes a step that fits; everything else is in order. */
  lemma ApplyKeepsShape(s: System, id: nat, pc: PC, e: Effect)
    requires Shape(s) && id in s.calls && !s.calls[id].pc.Done? && EffectOk(s, s.calls[id], pc, e)
    requires Removed(s.calls[id].(pc := pc)) && !Removed(s.calls[id]) ==>
      s.calls[id].op.DeleteRecord? && s.calls[id].op.uuid in s.records
    requires CallOk(Apply(s, id, pc, e), id)
    ensures Shape(Apply(s, id, pc, e))
  {
    StoreKept(s, id, pc, e);
    ApartKept(s, id, pc, e);
    forall i | i in Apply(s, id, pc, e).calls ensures CallOk(Apply(s, id, pc, e), i) {
      if i != id { OtherKept(s, id, pc, e, i); }
    }
  }

  /** The effect of a call's own request fits. */
  lemma DecideFits(s: System, id: nat)
    requires Shape(s) && id in s.calls
    ensures EffectOk(s, s.calls[id], Decide(s, s.calls[id]).0, Decide(s, s.calls[id]).1)
  {
    assert CallOk(s, id);
  }

  lemma StepFits(s: System, a: Action)
    requires Shape(s) && Moves(s, a)
    ensures EffectOk(s, s.calls[a.id], StepOf(s, a).0, StepOf(s, a).1)
    ensures Removed(s.calls[a.id].(pc := StepOf(s, a).0)) && !Removed(s.calls[a.id]) ==>
      s.calls[a.id].op.DeleteRecord? && s.calls[a.id].op.uuid in s.records
  {
    DecideFits(s, a.id);
    assert CallOk(s, a.id);
  }

  /** After its own step the acting call's program counter fits the new store. */
  lemma ActorPcKept(s: System, a: Action)
    requires Shape(s) && Moves(s, a)
    ensures PcOk(Next(s, a), Next(s, a).calls[a.id])
  {
    assert CallOk(s, a.id);
    match a
    case Advance(id) => AdvancedPcKept(s, id);
    case _ => FailedPcKept(s, a);
  }

  lemma FailedPcKept(s: System, a: Action)
    requires Shape(s) && Moves(s, a) && !a.Advance? && CallOk(s, a.id)
    ensures PcOk(Next(s, a), Next(s, a).calls[a.id])
  {
    var c := s.calls[a.id];
    var s', c' := Next(s, a), Next(s, a).calls[a.id];
    assert c'.pc.Done? && c'.pc.outcome != GaveUp("");
    assert s'.usedZones == s.usedZones;
  }

  lemma AdvancedPcKept(s: System, id: nat)
    requires Shape(s) && id in s.calls && !s.calls[id].pc.Done? && CallOk(s, id)
    ensures PcOk(Next(s, Advance(id)), Next(s, Advance(id)).calls[id])
  {
    var c, s' := s.calls[id], Next(s, Advance(id));
    var (pc, e) := Decide(s, c);
    assert s' == Apply(s, id, pc, e);
    assert s'.calls[id] == c.(pc := pc);
    match c.pc
    case ReadRecord => assert c.op.uuid in s.records ==> RecordOk(s, c.op.uuid);
    case ReadZone(_, zone) => assert zone in s.zones ==> ZoneOk(s, zone);
    case ListForCascade => assert forall u :: u in s.records ==> RecordOk(s, u);
    case ReadForCreate => assert c.op.r.zoneUUID in s.zones ==> ZoneOk(s, c.op.r.zoneUUID);
    case PutRecord(zone, modRev, z) => ReadKept(s, id, pc, e, zone, modRev, z);
    case _ =>
  }

  lemma ActorKept(s: System, a: Action)
    requires Shape(s) && Moves(s, a)
    ensures CallOk(Next(s, a), a.id)
  {
    assert CallOk(s, a.id);
    ActorPcKept(s, a);
    ActorRivalsKept(s, a);
    ActorRemoval(s, a);
  }

  lemma ActorRemoval(s: System, a: Action)
    requires Shape(s) && Moves(s, a) && CallOk(s, a.id)
    ensures
      var s', c := Next(s, a), Next(s, a).calls[a.id];
      && c.op == s.calls[a.id].op && s'.usedRecords == s.usedRecords
      && (Removed(c) ==> c.op.DeleteRecord? && c.op.uuid in s'.born && c.op.uuid !in s'.records)
  {
    StepFits(s, a);
  }

  lemma ActorRivalsKept(s: System, a: Action)
    requires Shape(s) && Moves(s, a) && CallOk(s, a.id)
    ensures
      var s' := Next(s, a);
      var c' := s'.calls[a.id];
      Contested(c').Some? ==> forall j {:trigger IsRival(s', a.id, j, Contested(c').value)} :: j in c'.rivals ==>
        IsRival(s', a.id, j, Contested(c').value)
  {
    var s' := Next(s, a);
    var c, c' := s.calls[a.id], s'.calls[a.id];
    if Contested(c').Some? {
      assert Contested(c) == Contested(c') || c.rivals == {};
      forall j | j in c'.rivals ensures IsRival(s', a.id, j, Contested(c').value) {
        assert IsRival(s, a.id, j, Contested(c').value);
      }
    }
  }

  lemma EnterKeepsShape(s: System, id: nat, op: Op)
    requires Shape(s) && id !in s.calls && (op.CreateRecord? ==> op.r.uuid !in s.usedRecords)
    ensures Shape(Enter(s, id, op))
  {
    var s' := Enter(s, id, op);
    forall z | z in s'.zones ensures ZoneOk(s', z) { assert ZoneOk(s, z); }
    forall u | u in s'.records ensures RecordOk(s', u) { assert RecordOk(s, u); }
    forall i | i in s'.calls ensures CallOk(s', i) {
      if i != id { UntouchedKept(s, s', i); }
    }
    forall i, j | i in s'.calls && j in s'.calls ensures Apart(s', i, j) {
      if i != id { assert CallOk(s, i); }
      if j != id { assert CallOk(s, j); }
      if i != id && j != id { assert Apart(s, i, j); }
    }
  }

  lemma UntouchedKept(s: System, s': System, i: nat)
    requires Shape(s) && i in s.calls && s.rev <= s'.rev && s.usedZones <= s'.usedZones &&
      s.usedRecords <= s'.usedRecords
    requires s'.born == s.born && s'.records == s.records
    requires forall z :: z in s.usedZones ==>
      (z in s'.zones <==> z in s.zones) && (z in s'.zones ==> s'.zones[z] == s.zones[z])
    requires forall j :: j in s.calls ==> j in s'.calls && s'.calls[j] == s.calls[j]
    ensures CallOk(s', i)
  {
    assert CallOk(s, i);
    var c := s.calls[i];
    if Contested(c).Some? {
      forall j | j in c.rivals
        ensures IsRival(s', i, j, Contested(c).value) { assert IsRival(s, i, j, Contested(c).value); }
    }
    assert PcOk(s', c);
  }

  lemma AddZoneKeepsShape(s: System, z: Zone)
    requires Shape(s) && z.uuid !in s.usedZones && z.records == 0
    ensures Shape(AddZone(s, z))
  {
    var s' := AddZone(s, z);
    forall k | k in s'.zones ensures ZoneOk(s', k) { if k != z.uuid { assert ZoneOk(s, k); } }
    forall u | u in s'.records ensures RecordOk(s', u) { assert RecordOk(s, u); }
    forall i | i in s'.calls ensures CallOk(s', i) { UntouchedKept(s, s', i); }
    forall i, j | i in s'.calls && j in s'.calls ensures Apart(s', i, j) { assert Apart(s, i, j); }
  }

  lemma NextKeepsShape(s: System, a: Action)
    requires Shape(s)
    ensures Shape(Next(s, a))
  {
    match a
    case Invoke(id, op) =>
      if id !in s.calls && (op.CreateRecord? ==> op.r.uuid !in s.usedRecords) { EnterKeepsShape(s, id, op); }
    case CreateZone(z) => if z.uuid !in s.usedZones && z.records == 0 { AddZoneKeepsShape(s, z); }
    case _ =>
      if Moves(s, a) {
        StepFits(s, a);
        ActorKept(s, a);
        ApplyKeepsShape(s, a.id, StepOf(s, a).0, StepOf(s, a).1);
      }
  }

  lemma {:induction false} RunKeepsShape(s: System, acts: seq<Action>)
    requires Shape(s)
    ensures Shape(Run(s, acts))
  {
    if acts != [] {
      RunKeepsShape(s, acts[..|acts| - 1]);
      NextKeepsShape(Run(s, acts[..|acts| - 1]), acts[|acts| - 1]);
    }
  }

  // ---- What the store promises ----

  /** A removal zone's count does not show: not yet, or never. */
  predicate Owes(pc: PC, zone: string) {
    Pending(pc, zone) || pc == Done(GaveUp(zone)) || pc == Done(Lost(zone)) || pc == Done(ZeroCount(zone))
  }

  /** A record zone's count does not show: not yet, or never. */
  predicate Unshown(pc: PC, zone: string) {
    (pc.PutZone? && pc.zone == zone) || pc == Done(Unbumped(zone))
  }

  ghost function Owed(calls: map<nat, Call>, zone: string): set<nat> {
    set i | i in calls && Owes(calls[i].pc, zone)
  }

  ghost function Unbumps(calls: map<nat, Call>, zone: string): set<nat> {
    set i | i in calls && Unshown(calls[i].pc, zone)
  }

  /** The carried count plus the creates it does not show is the live records plus the removals it does not show. */
  ghost predicate CountOk(s: System, zone: string)
    requires zone in s.zones
  {
    s.zones[zone].value.records + |Unbumps(s.calls, zone)| == |Live(s.records, zone)| + |Owed(s.calls, zone)|
  }

  ghost predicate Conserved(s: System) {
    forall z {:trigger CountOk(s, z)} :: z in s.zones ==> CountOk(s, z)
  }

  ghost predicate Rooted(s: System) {
    forall u {:trigger HasZone(s, u)} :: u in s.records ==> HasZone(s, u)
  }

  ghost predicate HasZone(s: System, u: string)
    requires u in s.records
  {
    s.records[u].value.zoneUUID in s.zones
  }

  /** The store starts with no call in flight, counts exact and foreign keys in place. */
  ghost predicate Initial(s: System) {
    Shape(s) && Conserved(s) && Rooted(s) && s.calls == map[]
  }

  /** Only a create's last put can bring a zone key into being in mid-run. */
  lemma ZonesWritten(s: System, a: Action)
    requires Shape(s) && Moves(s, a)
    ensures
      var c := s.calls[a.id];
      && (c.pc.PutZone? && (a.Advance? || a.LoseReply?) ==>
        c.pc.zone in s.usedZones && Next(s, a).zones.Keys == s.zones.Keys + {c.pc.zone})
      && (c.pc.PutZone? && a.Abort? ==> Next(s, a).zones == s.zones)
      && (!c.pc.PutZone? ==> Next(s, a).zones.Keys <= s.zones.Keys)
  {
    assert CallOk(s, a.id);
  }

  // ---- Contention ----

  /** A finished call stays as it is, and only running calls become rivals. */
  lemma NextRivals(s: System, a: Action, j: nat, id: nat)
    requires j in s.calls && s.calls[j].pc.Done?
    ensures j in Next(s, a).calls && Next(s, a).calls[j].pc == s.calls[j].pc
    ensures id in Next(s, a).calls && j in Next(s, a).calls[id].rivals ==> id in s.calls && j in s.calls[id].rivals
  {}

  /** A call's rivals were all still running, or not yet invoked, when it was invoked itself. */
  lemma {:induction false} RivalsOverlap(s: System, acts: seq<Action>, id: nat, j: nat)
    requires id !in s.calls && j in s.calls && s.calls[j].pc.Done?
    ensures j in Run(s, acts).calls && Run(s, acts).calls[j].pc == s.calls[j].pc
    ensures id in Run(s, acts).calls ==> j !in Run(s, acts).calls[id].rivals
  {
    if acts != [] {
      RivalsOverlap(s, acts[..|acts| - 1], id, j);
      NextRivals(Run(s, acts[..|acts| - 1]), acts[|acts| - 1], j, id);
    }
  }

  /** The calls other than id that wrote zone at some point between m and n. */
  ghost function WritersBetween(m: System, n: System, id: nat, zone: string): set<nat> {
    set j | j in n.calls && j != id && WroteZone(n.calls[j], zone) && !(j in m.calls && m.calls[j].pc.Done?)
  }

  /** A call gives up its decrement only after eight other calls wrote that zone while it was trying. */
  lemma GivingUpNeedsEightRivals(s: System, acts: seq<Action>, id: nat, zone: string)
    requires Initial(s) && id in Run(s, acts).calls && Run(s, acts).calls[id].pc == Done(GaveUp(zone))
    ensures
      var s' := Run(s, acts);
      && |s'.calls[id].rivals| >= 8
      && forall j :: j in s'.calls[id].rivals ==> IsRival(s', id, j, zone)
  {
    RunKeepsShape(s, acts);
    assert CallOk(Run(s, acts), id) && Contested(Run(s, acts).calls[id]) == Some(zone);
  }

  /**
   If from the call's invocation in m on at most seven other calls write its zone, it never gives up its decrement,
   whatever else the schedule does.
   */
  lemma SevenWritersNeverExhaust(s: System, before: seq<Action>, acts: seq<Action>, id: nat, zone: string)
    requires Initial(s) && id !in Run(s, before).calls && id in Run(Run(s, before), acts).calls
    requires |WritersBetween(Run(s, before), Run(Run(s, before), acts), id, zone)| <= 7
    ensures Run(Run(s, before), acts).calls[id].pc != Done(GaveUp(zone))
  {
    var m := Run(s, before);
    var n := Run(m, acts);
    RunKeepsShape(s, before);
    RunKeepsShape(m, acts);
    if n.calls[id].pc == Done(GaveUp(zone)) {
      assert CallOk(n, id) && Contested(n.calls[id]) == Some(zone);
      forall j | j in n.calls[id].rivals ensures j in WritersBetween(m, n, id, zone) {
        assert IsRival(n, id, j, zone);
        if j in m.calls && m.calls[j].pc.Done? { RivalsOverlap(m, acts, id, j); }
      }
      SubsetSize(n.calls[id].rivals, WritersBetween(m, n, id, zone));
    }
  }

  /** Two calls on one record never both win its removal, so its decrement is owed once. */
  lemma {:induction false} RecordRemovedOnce(s: System, acts: seq<Action>, i: nat, j: nat)
    requires Initial(s) && i != j
    requires var s' := Run(s, acts); i in s'.calls && j in s'.calls && s'.calls[i].op == s'.calls[j].op
    ensures var s' := Run(s, acts); !(Removed(s'.calls[i]) && Removed(s'.calls[j]))
  {
    RunKeepsShape(s, acts);
    assert Apart(Run(s, acts), i, j);
  }
}
