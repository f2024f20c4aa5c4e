/**
 The zone counts of the etcd DNS store under concurrency, zone by zone: exactly which schedules keep a zone's count in
 balance and a removed zone removed.
 */
module DnsCounts {
  import opened EtcdKV
  import opened DnsProtocol
  import opened Sets
  import Rows = DnsStore

  /** The step is a create's unguarded put of this very zone, and reaches the store. */
  predicate PutOn(s: System, a: Action, zone: string) {
    (a.Advance? || a.LoseReply?) && a.id in s.calls && s.calls[a.id].pc.PutZone? && s.calls[a.id].pc.zone == zone
  }

  /** A put on zone, if the step is one, finds it in place. */
  predicate FindsZone(s: System, a: Action, zone: string) {
    PutOn(s, a, zone) ==> zone in s.zones
  }

  /** A put on zone finds it in place with the count the create read: the store can decide this before the put. */
  predicate Harmless(s: System, a: Action, zone: string) {
    PutOn(s, a, zone) ==> zone in s.zones && s.zones[zone].value.records == s.calls[a.id].pc.z.records
  }

  /** A put on zone finds it at the revision the create read, as a guarded put would insist. */
  predicate Undisturbed(s: System, a: Action, zone: string) {
    PutOn(s, a, zone) ==> ModRev(s.zones, zone) == s.calls[a.id].pc.modRev
  }

  ghost predicate Balanced(s: System, zone: string) {
    zone in s.zones ==> CountOk(s, zone)
  }

  ghost predicate StaysGone(s: System, s': System, zone: string) {
    zone in s.usedZones && zone !in s.zones ==> zone !in s'.zones
  }

  // ---- One step ----

  lemma OtherPcsStay(s: System, id: nat, pc: PC, e: Effect)
    requires id in s.calls
    ensures Apply(s, id, pc, e).calls.Keys == s.calls.Keys && Apply(s, id, pc, e).calls[id].pc == pc
    ensures forall i :: i in s.calls && i != id ==> Apply(s, id, pc, e).calls[i].pc == s.calls[i].pc
  {}

  /** A step changes what is owed and unshown by the acting call's part only. */
  lemma OwedAfterStep(calls: map<nat, Call>, calls': map<nat, Call>, id: nat, zone: string)
    requires id in calls && calls'.Keys == calls.Keys
    requires forall i :: i in calls && i != id ==> calls'[i].pc == calls[i].pc
    ensures |Owed(calls', zone)| == |Owed(calls, zone)|
      + (if Owes(calls'[id].pc, zone) then 1 else 0) - (if Owes(calls[id].pc, zone) then 1 else 0)
    ensures |Unbumps(calls', zone)| == |Unbumps(calls, zone)|
      + (if Unshown(calls'[id].pc, zone) then 1 else 0) - (if Unshown(calls[id].pc, zone) then 1 else 0)
  {
    SizeShift(Owed(calls, zone), Owed(calls', zone), id);
    SizeShift(Unbumps(calls, zone), Unbumps(calls', zone), id);
  }

  lemma LiveAfterDrop(records: Keyspace<Rows.Record>, u: string, zone: string)
    requires u in records
    ensures |Live(records - {u}, zone)| == |Live(records, zone)| - if records[u].value.zoneUUID == zone then 1 else 0
  {
    if records[u].value.zoneUUID == zone {
      assert Live(records - {u}, zone) == Live(records, zone) - {u};
    } else {
      assert Live(records - {u}, zone) == Live(records, zone);
    }
  }

  lemma LiveAfterPut(records: Keyspace<Rows.Record>, r: Rows.Record, rev: nat, zone: string)
    requires r.uuid !in records
    ensures |Live(Put(records, r.uuid, r, rev), zone)| == |Live(records, zone)| + if r.zoneUUID == zone then 1 else 0
  {
    var records' := Put(records, r.uuid, r, rev);
    if r.zoneUUID == zone {
      assert Live(records', zone) == Live(records, zone) + {r.uuid};
    } else {
      assert Live(records', zone) == Live(records, zone);
    }
  }

  lemma LiveAfterApply(s: System, id: nat, pc: PC, e: Effect, zone: string)
    requires Shape(s) && id in s.calls && EffectOk(s, s.calls[id], pc, e)
    requires e.Cascaded? ==> e.zone != zone
    ensures |Live(RecordsAfter(s, e), zone)| == |Live(s.records, zone)|
      + (if e.Store? && e.row.zoneUUID == zone then 1 else 0)
      - (if e.Drop? && s.records[e.uuid].value.zoneUUID == zone then 1 else 0)
  {
    match e
    case Drop(u) => LiveAfterDrop(s.records, u, zone);
    case Store(row) =>
      assert row.uuid in s.records ==> RecordOk(s, row.uuid);
      LiveAfterPut(s.records, row, s.rev + 1, zone);
    case Cascaded(_, doomed) => assert Live(s.records - doomed, zone) == Live(s.records, zone);
    case _ =>
  }

  /** What a step adds to a zone's carried count. */
  function Bump(s: System, e: Effect, zone: string): int
    requires zone in s.zones
  {
    if e.SetZone? && e.zone == zone then e.z.records - s.zones[zone].value.records else 0
  }

  /** What the acting call's move adds to both sides of the balance. */
  function Shift(s: System, was: PC, pc: PC, e: Effect, zone: string): int
    requires e.Drop? ==> e.uuid in s.records
  {
    (if e.Store? && e.row.zoneUUID == zone then 1 else 0)
    - (if e.Drop? && s.records[e.uuid].value.zoneUUID == zone then 1 else 0)
    + (if Owes(pc, zone) then 1 else 0) - (if Owes(was, zone) then 1 else 0)
    - (if Unshown(pc, zone) then 1 else 0) + (if Unshown(was, zone) then 1 else 0)
  }

  /** The count moves with the records and the calls, except where a harmful put overwrites it. */
  lemma BumpIsShift(s: System, a: Action, zone: string)
    requires Shape(s) && Moves(s, a) && zone in s.zones && CallOk(s, a.id)
    requires EffectOk(s, s.calls[a.id], StepOf(s, a).0, StepOf(s, a).1)
    requires StepOf(s, a).1.Cascaded? ==> StepOf(s, a).1.zone != zone
    ensures
      Bump(s, StepOf(s, a).1, zone) == Shift(s, s.calls[a.id].pc, StepOf(s, a).0, StepOf(s, a).1, zone)
      <==> Harmless(s, a, zone)
  {
    match s.calls[a.id].pc
    case ReadRecord =>
    case RemoveRecord(_) =>
    case ReadZone(_, _) =>
    case SwapZone(_, _, _, _) =>
    case ListForCascade =>
    case Cascade(_) =>
    case ReadForCreate =>
    case PutRecord(_, _, _) =>
    case PutZone(_, _, _) =>
  }

  lemma ApplyBalance(s: System, id: nat, pc: PC, e: Effect, zone: string)
    requires Shape(s) && id in s.calls && EffectOk(s, s.calls[id], pc, e)
    requires zone in s.zones && zone in ZonesAfter(s, e) && CountOk(s, zone)
    ensures CountOk(Apply(s, id, pc, e), zone) <==> Bump(s, e, zone) == Shift(s, s.calls[id].pc, pc, e, zone)
  {
    var s' := Apply(s, id, pc, e);
    OtherPcsStay(s, id, pc, e);
    OwedAfterStep(s.calls, s'.calls, id, zone);
    LiveAfterApply(s, id, pc, e, zone);
    assert s'.zones[zone].value.records == s.zones[zone].value.records + Bump(s, e, zone);
  }

  lemma StepBalance(s: System, a: Action, zone: string)
    requires Shape(s) && Moves(s, a) && zone in s.zones && zone in Next(s, a).zones && CountOk(s, zone)
    ensures CountOk(Next(s, a), zone) <==> Harmless(s, a, zone)
  {
    StepFits(s, a);
    ApplyBalance(s, a.id, StepOf(s, a).0, StepOf(s, a).1, zone);
    assert CallOk(s, a.id);
    BumpIsShift(s, a, zone);
  }

  lemma FreshZoneBalances(s: System, zone: string)
    requires Shape(s) && zone !in s.usedZones
    ensures Live(s.records, zone) == {} && Owed(s.calls, zone) == {} && Unbumps(s.calls, zone) == {}
  {
    forall u | u in s.records ensures s.records[u].value.zoneUUID != zone { assert RecordOk(s, u); }
    forall i | i in s.calls ensures !Owes(s.calls[i].pc, zone) && !Unshown(s.calls[i].pc, zone) { assert CallOk(s, i); }
  }

  lemma EntryBalances(s: System, a: Action, zone: string)
    requires Shape(s) && Balanced(s, zone) && !Moves(s, a)
    ensures Balanced(Next(s, a), zone) && StaysGone(s, Next(s, a), zone)
  {
    var s' := Next(s, a);
    if zone in s.zones {
      assert CountOk(s, zone) && ZoneOk(s, zone);
      assert Owed(s'.calls, zone) == Owed(s.calls, zone) && Unbumps(s'.calls, zone) == Unbumps(s.calls, zone);
    } else if zone in s'.zones {
      FreshZoneBalances(s, zone);
    }
  }

  /** The exact condition for one step to leave a removed zone removed. */
  lemma StepKeepsGoneExactly(s: System, a: Action, zone: string)
    requires Shape(s)
    ensures StaysGone(s, Next(s, a), zone) <==> FindsZone(s, a, zone)
  {
    if Moves(s, a) {
      ZonesWritten(s, a);
    }
  }

  /** The exact condition for one step to keep a zone's balance and leave it removed if it is. */
  lemma StepConservesExactly(s: System, a: Action, zone: string)
    requires Shape(s) && Balanced(s, zone)
    ensures Balanced(Next(s, a), zone) && StaysGone(s, Next(s, a), zone) <==> Harmless(s, a, zone)
  {
    if !Moves(s, a) {
      EntryBalances(s, a, zone);
    } else {
      StepKeepsGoneExactly(s, a, zone);
      ZonesWritten(s, a);
      if zone in s.zones && zone in Next(s, a).zones { StepBalance(s, a, zone); }
    }
  }

  // ---- Whole schedules ----

  /** At every point of the schedule the zone's count balances, and once removed it has not come back. */
  ghost predicate CountSound(s: System, acts: seq<Action>, zone: string) {
    acts == [] ||
    var init := acts[..|acts| - 1];
    CountSound(s, init, zone) && Balanced(Run(s, acts), zone) && StaysGone(Run(s, init), Run(s, acts), zone)
  }

  ghost predicate PutsHarmless(s: System, acts: seq<Action>, zone: string) {
    acts == [] ||
    var init := acts[..|acts| - 1];
    PutsHarmless(s, init, zone) && Harmless(Run(s, init), acts[|acts| - 1], zone)
  }

  /**
   The exact condition on whole schedules, whatever happens to other zones: a zone's count balances and the zone stays
   gone once removed if and only if every unguarded put on it finds it in place with the count that was read.
   */
  lemma {:induction false} CountSoundExactly(s: System, acts: seq<Action>, zone: string)
    requires Shape(s) && Balanced(s, zone)
    ensures CountSound(s, acts, zone) <==> PutsHarmless(s, acts, zone)
    ensures CountSound(s, acts, zone) ==> Balanced(Run(s, acts), zone)
  {
    if acts != [] {
      var init := acts[..|acts| - 1];
      CountSoundExactly(s, init, zone);
      RunKeepsShape(s, init);
      if CountSound(s, init, zone) { StepConservesExactly(Run(s, init), acts[|acts| - 1], zone); }
    }
  }

  ghost predicate PutsUndisturbed(s: System, acts: seq<Action>, zone: string) {
    acts == [] ||
    var init := acts[..|acts| - 1];
    PutsUndisturbed(s, init, zone) && Undisturbed(Run(s, init), acts[|acts| - 1], zone)
  }

  /** The revision guard the other writers use would be enough: an undisturbed put is harmless. */
  lemma {:induction false} UndisturbedIsHarmless(s: System, acts: seq<Action>, zone: string)
    requires Shape(s) && Balanced(s, zone) && PutsUndisturbed(s, acts, zone)
    ensures PutsHarmless(s, acts, zone) && CountSound(s, acts, zone)
  {
    if acts != [] {
      var init, a := acts[..|acts| - 1], acts[|acts| - 1];
      UndisturbedIsHarmless(s, init, zone);
      RunKeepsShape(s, init);
      if Moves(Run(s, init), a) { assert CallOk(Run(s, init), a.id); }
    }
    CountSoundExactly(s, acts, zone);
  }

  /**
   Conservation: a stored zone's count, plus the creates whose bump is pending or lost, is its live records, plus the
   removals whose decrement is pending, given up, lost or skipped. With no such create it never falls below the live
   number.
   */
  lemma {:induction false} RecordCountConserved(s: System, acts: seq<Action>, zone: string)
    requires Shape(s) && Balanced(s, zone) && PutsHarmless(s, acts, zone) && zone in Run(s, acts).zones
    ensures
      var s' := Run(s, acts);
      var count := s'.zones[zone].value.records;
      && count + |Unbumps(s'.calls, zone)| == |Live(s'.records, zone)| + |Owed(s'.calls, zone)|
      && (Unbumps(s'.calls, zone) == {} ==> count >= |Live(s'.records, zone)|)
  {
    CountSoundExactly(s, acts, zone);
    assert CountOk(Run(s, acts), zone);
  }

  /**
   When the zero check stops a decrement: exactly when every live record and every removal not shown is matched by a
   create not shown. So some create's bump is pending or was lost; without one the check is never taken.
   */
  lemma ZeroCheckExactly(s: System, acts: seq<Action>, id: nat, zone: string)
    requires Shape(s) && Balanced(s, zone) && PutsHarmless(s, acts, zone)
    requires var s' := Run(s, acts);
      id in s'.calls && s'.calls[id].pc.ReadZone? && s'.calls[id].pc.zone == zone && zone in s'.zones
    ensures
      var s' := Run(s, acts);
      && (Next(s', Advance(id)).calls[id].pc == Done(ZeroCount(zone)) <==>
          |Unbumps(s'.calls, zone)| == |Live(s'.records, zone)| + |Owed(s'.calls, zone)|)
      && (Next(s', Advance(id)).calls[id].pc == Done(ZeroCount(zone)) ==> Unbumps(s'.calls, zone) != {})
  {
    CountSoundExactly(s, acts, zone);
    var s' := Run(s, acts);
    assert CountOk(s', zone) && id in Owed(s'.calls, zone);
  }

  ghost predicate NeverBack(s: System, acts: seq<Action>, zone: string) {
    acts == [] ||
    var init := acts[..|acts| - 1];
    NeverBack(s, init, zone) && StaysGone(Run(s, init), Run(s, acts), zone)
  }

  ghost predicate PutsFindZone(s: System, acts: seq<Action>, zone: string) {
    acts == [] ||
    var init := acts[..|acts| - 1];
    PutsFindZone(s, init, zone) && FindsZone(Run(s, init), acts[|acts| - 1], zone)
  }

  /** The exact condition on whole schedules for a zone never to come back: every unguarded put on it finds it. */
  lemma {:induction false} NeverBackExactly(s: System, acts: seq<Action>, zone: string)
    requires Shape(s)
    ensures NeverBack(s, acts, zone) <==> PutsFindZone(s, acts, zone)
  {
    if acts != [] {
      var init := acts[..|acts| - 1];
      NeverBackExactly(s, init, zone);
      RunKeepsShape(s, init);
      StepKeepsGoneExactly(Run(s, init), acts[|acts| - 1], zone);
    }
  }

  /** Then a removed zone is gone for good: a pending decrement is guarded by the revision it read. */
  lemma {:induction false} RemovedZoneStaysGone(s: System, acts: seq<Action>, zone: string)
    requires Shape(s) && zone in s.usedZones && zone !in s.zones && PutsFindZone(s, acts, zone)
    ensures zone in Run(s, acts).usedZones && zone !in Run(s, acts).zones
  {
    if acts != [] {
      var init := acts[..|acts| - 1];
      RemovedZoneStaysGone(s, init, zone);
      RunKeepsShape(s, init);
      StepKeepsGoneExactly(Run(s, init), acts[|acts| - 1], zone);
    }
  }

  // ---- Harmful puts ----

  /** A DeleteZone call that runs alone. */
  lemma CascadeAlone(a: System, j: nat, zone: string)
    requires j !in a.calls && zone in a.zones && 1 <= a.zones[zone].createRev
    ensures
      var b := Next(Next(Next(a, Invoke(j, DeleteZone(zone))), Advance(j)), Advance(j));
      && b.zones == a.zones - {zone} && b.records == a.records - Live(a.records, zone)
      && forall i :: i in a.calls ==> i in b.calls && b.calls[i].pc == a.calls[i].pc
  {
    var b0 := Next(a, Invoke(j, DeleteZone(zone)));
    assert b0 == Enter(a, j, DeleteZone(zone));
    var b1 := Next(b0, Advance(j));
    assert b1 == Apply(b0, j, Cascade(Live(a.records, zone)), Nothing);
    assert Next(b1, Advance(j)) == Apply(b1, j, Done(ZoneRemoved), Cascaded(zone, Live(a.records, zone)));
  }

  /** A cascade between a create's read and its put of the zone makes the put harmful: it brings the zone back. */
  lemma {:induction false} OverlappedCreateResurrectsZone(s: System, i: nat, j: nat)
    requires Shape(s) && i in s.calls && s.calls[i].pc.PutZone? && s.calls[i].pc.zone in s.zones && j !in s.calls
    ensures
      var zone := s.calls[i].pc.zone;
      var b := Next(Next(Next(s, Invoke(j, DeleteZone(zone))), Advance(j)), Advance(j));
      && zone !in b.zones && Live(b.records, zone) == {} && !Harmless(b, Advance(i), zone)
      && zone in Next(b, Advance(i)).zones && Next(b, Advance(i)).records == b.records
  {
    var zone := s.calls[i].pc.zone;
    CascadeAlone(s, j, zone);
    var b := Next(Next(Next(s, Invoke(j, DeleteZone(zone))), Advance(j)), Advance(j));
    assert b.calls[i].pc == s.calls[i].pc && zone !in b.zones;
    PutBringsBack(b, i, zone);
  }

  lemma PutBringsBack(b: System, i: nat, zone: string)
    requires PutOn(b, Advance(i), zone) && zone !in b.zones
    ensures !Harmless(b, Advance(i), zone) && zone in Next(b, Advance(i)).zones
    ensures Next(b, Advance(i)).records == b.records
  {}

  /** A decrement that commits before a create's put turns a harmless put into a harmful one. */
  lemma OverlappedCreateLosesDecrement(s: System, i: nat, j: nat, zone: string)
    requires Shape(s) && PutOn(s, Advance(i), zone) && Harmless(s, Advance(i), zone)
    requires j in s.calls && s.calls[j].pc.SwapZone? && s.calls[j].pc.zone == zone
    requires ModRev(s.zones, zone) == s.calls[j].pc.modRev
    ensures !Harmless(Next(s, Advance(j)), Advance(i), zone)
  {
    assert CallOk(s, i) && CallOk(s, j);
  }

  /** Running alone, a create on a stored zone gets to its put of the zone. */
  lemma CreateUpToPut(s: System, i: nat, r: Rows.Record)
    requires Shape(s) && i !in s.calls && r.zoneUUID in s.zones && r.uuid !in s.usedRecords
    ensures
      var a, kv := Next(Next(Next(s, Invoke(i, CreateRecord(r))), Advance(i)), Advance(i)), s.zones[r.zoneUUID];
      && i in a.calls && a.calls[i].pc == PutZone(r.zoneUUID, kv.modRev, kv.value) && a.zones == s.zones
      && (forall u :: u in s.records ==> u in a.records && a.records[u] == s.records[u])
      && a.calls.Keys == s.calls.Keys + {i}
  {
    assert ZoneOk(s, r.zoneUUID);
    assert r.uuid in s.records ==> RecordOk(s, r.uuid);
    var kv := s.zones[r.zoneUUID];
    var a0 := Next(s, Invoke(i, CreateRecord(r)));
    assert a0 == Enter(s, i, CreateRecord(r));
    var a1 := Next(a0, Advance(i));
    assert a1 == Apply(a0, i, PutRecord(r.zoneUUID, kv.modRev, kv.value), Nothing);
  }

  /** Running alone, a delete of a stored record gets to its swap, if its zone is there with a count. */
  lemma DeleteUpToSwap(a: System, j: nat, u: string)
    requires Shape(a) && j !in a.calls && u in a.records
    requires a.records[u].value.zoneUUID in a.zones && a.zones[a.records[u].value.zoneUUID].value.records != 0
    ensures
      var zone := a.records[u].value.zoneUUID;
      var b0 := Next(Next(Next(a, Invoke(j, DeleteRecord(u))), Advance(j)), Advance(j));
      var b := Next(b0, Advance(j));
      && j in b.calls && b.calls[j].pc.SwapZone? && b.calls[j].pc.zone == zone
      && b.calls[j].pc.modRev == ModRev(a.zones, zone) && b.zones == a.zones
      && forall i :: i in a.calls ==> i in b.calls && b.calls[i].pc == a.calls[i].pc
  {
    var zone := a.records[u].value.zoneUUID;
    var b1 := Next(a, Invoke(j, DeleteRecord(u)));
    assert b1 == Enter(a, j, DeleteRecord(u));
    var b2 := Next(b1, Advance(j));
    assert b2 == Apply(b1, j, RemoveRecord(zone), Nothing);
    var b3 := Next(b2, Advance(j));
    assert b3 == Apply(b2, j, ReadZone(0, zone), Drop(u));
    var z := a.zones[zone].value;
    assert Next(b3, Advance(j)) ==
      Apply(b3, j, SwapZone(0, zone, a.zones[zone].modRev, z.(records := z.records - 1)), Nothing);
  }

  /**
   From every sound store with a record, creates and deletes that overlap lose a decrement: the two calls reach their
   puts side by side, and once the decrement commits the create's put is harmful.
   */
  lemma OverlapIsReachable(s: System, i: nat, j: nat, r: Rows.Record, u: string)
    requires Initial(s) && i != j && r.uuid !in s.usedRecords && u in s.records
    requires s.records[u].value.zoneUUID == r.zoneUUID
    ensures
      var a := Next(Next(Next(s, Invoke(i, CreateRecord(r))), Advance(i)), Advance(i));
      var b := Next(Next(Next(Next(a, Invoke(j, DeleteRecord(u))), Advance(j)), Advance(j)), Advance(j));
      Harmless(b, Advance(i), r.zoneUUID) && !Harmless(Next(b, Advance(j)), Advance(i), r.zoneUUID)
  {
    var zone := r.zoneUUID;
    assert HasZone(s, u) && CountOk(s, zone);
    assert u in Live(s.records, zone) && Owed(s.calls, zone) == {} && Unbumps(s.calls, zone) == {};
    CreateUpToPut(s, i, r);
    var a := Next(Next(Next(s, Invoke(i, CreateRecord(r))), Advance(i)), Advance(i));
    ThreeStepsShape(s, Invoke(i, CreateRecord(r)), Advance(i), Advance(i));
    DeleteUpToSwap(a, j, u);
    ThreeStepsShape(a, Invoke(j, DeleteRecord(u)), Advance(j), Advance(j));
    var b0 := Next(Next(Next(a, Invoke(j, DeleteRecord(u))), Advance(j)), Advance(j));
    NextKeepsShape(b0, Advance(j));
    var b := Next(b0, Advance(j));
    assert PutOn(b, Advance(i), zone);
    OverlappedCreateLosesDecrement(b, i, j, zone);
  }

  lemma ThreeStepsShape(s: System, a: Action, b: Action, c: Action)
    requires Shape(s)
    ensures Shape(Next(Next(Next(s, a), b), c))
  {
    NextKeepsShape(s, a);
    NextKeepsShape(Next(s, a), b);
    NextKeepsShape(Next(Next(s, a), b), c);
  }
}
