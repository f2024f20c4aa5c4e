/**
 The foreign keys of the etcd DNS store under concurrency: a record is created with a read and two puts, a zone is
 removed with a listing and a transaction. Which calls may overlap, and exactly from which states the running calls can
 still leave a record without its zone.
 */
module DnsRoots {
  import opened DnsProtocol
  import opened DnsCounts
  import Rows = DnsStore

  // ---- What one step must not do ----

  /** A create stands at the put of its record, and its zone is gone. */
  ghost predicate LateStore(s: System, i: nat) {
    i in s.calls && s.calls[i].pc.PutRecord? && s.calls[i].pc.zone !in s.zones
  }

  /** A delete stands at its transaction on a stored zone, and the zone has a record the delete did not list. */
  ghost predicate StaleCascade(s: System, j: nat) {
    && j in s.calls && s.calls[j].pc.Cascade? && s.calls[j].op.DeleteZone? && s.calls[j].op.uuid in s.zones
    && !(Live(s.records, s.calls[j].op.uuid) <= s.calls[j].pc.doomed)
  }

  /** The step takes effect. */
  predicate Lands(s: System, a: Action) {
    Moves(s, a) && !a.Abort?
  }

  /** A step orphans a record if and only if it is a late put of a record or a stale cascade. */
  lemma StepRootsExactly(s: System, a: Action)
    requires Shape(s) && Rooted(s)
    ensures Rooted(Next(s, a)) <==> !(Lands(s, a) && (LateStore(s, a.id) || StaleCascade(s, a.id)))
  {
    var s' := Next(s, a);
    if Moves(s, a) {
      assert CallOk(s, a.id);
      StepFits(s, a);
      ZonesWritten(s, a);
      MoveRoots(s, a, StepOf(s, a).1);
      RootsOfEffect(s, a);
    } else {
      forall u | u in s'.records ensures HasZone(s', u) { assert HasZone(s, u); }
    }
  }

  ghost predicate EffectKeepsRoots(s: System, e: Effect) {
    match e
    case Store(row) => row.zoneUUID in s.zones
    case Cascaded(zone, doomed) => Live(s.records, zone) <= doomed
    case _ => true
  }

  lemma RootsOfEffect(s: System, a: Action)
    requires Shape(s) && Moves(s, a) && CallOk(s, a.id)
    ensures EffectKeepsRoots(s, StepOf(s, a).1) <==> !(Lands(s, a) && (LateStore(s, a.id) || StaleCascade(s, a.id)))
  {
    var c := s.calls[a.id];
    if c.pc.PutRecord? {
      assert c.op.r.uuid in s.records ==> RecordOk(s, c.op.r.uuid);
    }
  }

  lemma MoveRoots(s: System, a: Action, e: Effect)
    requires Shape(s) && Rooted(s) && Moves(s, a) && e == StepOf(s, a).1
    requires EffectOk(s, s.calls[a.id], StepOf(s, a).0, e)
    ensures Rooted(Next(s, a)) <==> EffectKeepsRoots(s, e)
  {
    var s' := Next(s, a);
    assert s'.zones == ZonesAfter(s, e) && s'.records == RecordsAfter(s, e);
    if e.Store? {
      assert e.row.uuid in s'.records && s'.records[e.row.uuid].value == e.row;
      assert HasZone(s', e.row.uuid) <==> e.row.zoneUUID in s.zones;
    }
    if e.Cascaded? && !(Live(s.records, e.zone) <= e.doomed) {
      var u :| u in Live(s.records, e.zone) && u !in e.doomed;
      assert u in s'.records && !HasZone(s', u);
    }
    if EffectKeepsRoots(s, e) {
      forall u | u in s'.records ensures HasZone(s', u) {
        if u in s.records { assert HasZone(s, u); }
      }
    }
  }

  // ---- Creates and deletes of one zone that do not overlap ----

  ghost predicate Creating(s: System, i: nat, zone: string) {
    i in s.calls && s.calls[i].op.CreateRecord? && s.calls[i].op.r.zoneUUID == zone && !s.calls[i].pc.Done?
  }

  ghost predicate Deleting(s: System, j: nat, zone: string) {
    j in s.calls && s.calls[j].op == DeleteZone(zone) && !s.calls[j].pc.Done?
  }

  /** No create is invoked in a zone while a delete of it runs, nor the other way round. */
  ghost predicate StartsApart(s: System, a: Action) {
    && (a.Invoke? && a.op.CreateRecord? ==> forall j :: !Deleting(s, j, a.op.r.zoneUUID))
    && (a.Invoke? && a.op.DeleteZone? ==> forall i :: !Creating(s, i, a.op.uuid))
  }

  ghost predicate NoOverlap(s: System, acts: seq<Action>) {
    acts == [] ||
    var init := acts[..|acts| - 1];
    NoOverlap(s, init) && StartsApart(Run(s, init), acts[|acts| - 1])
  }

  /** A create past its read has its zone; a delete past its listing has listed every live record. */
  ghost predicate Settled(s: System, i: nat)
    requires i in s.calls
  {
    var c := s.calls[i];
    && (c.pc.PutRecord? ==> c.pc.zone in s.zones)
    && (c.pc.PutZone? ==> c.pc.zone in s.zones)
    && (c.pc.Cascade? && c.op.DeleteZone? ==> Live(s.records, c.op.uuid) <= c.pc.doomed)
  }

  ghost predicate Quiet(s: System) {
    && (forall i {:trigger Settled(s, i)} :: i in s.calls ==> Settled(s, i))
    && (forall i, j, zone :: Creating(s, i, zone) ==> !Deleting(s, j, zone))
  }

  /** A step starts no call, so a call running after it was running before it. */
  lemma RunningBefore(s: System, a: Action, k: nat, zone: string)
    requires !a.Invoke?
    ensures Creating(Next(s, a), k, zone) ==> Creating(s, k, zone)
    ensures Deleting(Next(s, a), k, zone) ==> Deleting(s, k, zone)
  {}

  lemma QuietKept(s: System, a: Action)
    requires Shape(s) && Rooted(s) && Quiet(s) && StartsApart(s, a)
    ensures Quiet(Next(s, a)) && Rooted(Next(s, a)) && forall zone :: FindsZone(s, a, zone)
  {
    assert a.Advance? || a.LoseReply? ==> (a.id in s.calls ==> Settled(s, a.id));
    StepRootsExactly(s, a);
    var s' := Next(s, a);
    forall i | i in s'.calls ensures Settled(s', i) {
      if i in s.calls { SettledKept(s, a, i); }
    }
    forall i, j, zone | Creating(s', i, zone) ensures !Deleting(s', j, zone) {
      if a.Invoke? {
        InvokedApart(s, a, i, j, zone);
      } else {
        RunningBefore(s, a, i, zone);
        RunningBefore(s, a, j, zone);
      }
    }
  }

  lemma InvokedApart(s: System, a: Action, i: nat, j: nat, zone: string)
    requires Quiet(s) && StartsApart(s, a) && a.Invoke? && Creating(Next(s, a), i, zone)
    ensures !Deleting(Next(s, a), j, zone)
  {
    var s' := Next(s, a);
    assert i != a.id ==> Creating(s, i, zone);
    assert j != a.id && Deleting(s', j, zone) ==> Deleting(s, j, zone);
  }

  lemma SettledKept(s: System, a: Action, i: nat)
    requires Shape(s) && Quiet(s) && i in s.calls
    ensures Settled(Next(s, a), i)
  {
    assert CallOk(s, i) && Settled(s, i);
    if Moves(s, a) {
      if a.id == i { ActorSettled(s, a); } else { OtherSettled(s, a, i); }
    } else {
      OtherZonesStay(s, a);
    }
  }

  lemma OtherZonesStay(s: System, a: Action)
    requires !Moves(s, a)
    ensures s.zones.Keys <= Next(s, a).zones.Keys && Next(s, a).records == s.records
    ensures forall i :: i in s.calls ==> i in Next(s, a).calls && Next(s, a).calls[i] == s.calls[i]
  {}

  lemma ActorSettled(s: System, a: Action)
    requires Shape(s) && Moves(s, a) && CallOk(s, a.id) && Settled(s, a.id)
    ensures Settled(Next(s, a), a.id)
  {
    var c := s.calls[a.id];
    if c.pc.ReadForCreate? {
      assert c.op.r.zoneUUID in s.zones ==> ZoneOk(s, c.op.r.zoneUUID);
    }
  }

  /** Another call's zone goes only to a delete of it, and its zone's records come only from a create in it. */
  lemma OtherSettled(s: System, a: Action, i: nat)
    requires Shape(s) && Quiet(s) && Moves(s, a) && i in s.calls && i != a.id && CallOk(s, i) && Settled(s, i)
    ensures Settled(Next(s, a), i)
  {
    assert CallOk(s, a.id);
    var e := StepOf(s, a).1;
    OthersPcStays(s, a, i);
    match s.calls[i].pc
    case PutRecord(zone, _, _) =>
      assert Creating(s, i, zone) && !Deleting(s, a.id, zone);
      ZoneOutlives(s, a, zone);
    case PutZone(zone, _, _) =>
      assert Creating(s, i, zone) && !Deleting(s, a.id, zone);
      ZoneOutlives(s, a, zone);
    case Cascade(doomed) =>
      assert Deleting(s, i, s.calls[i].op.uuid) && !Creating(s, a.id, s.calls[i].op.uuid);
      ListingCovers(s, a, s.calls[i].op.uuid, doomed);
    case _ =>
  }

  lemma OthersPcStays(s: System, a: Action, i: nat)
    requires Moves(s, a) && i in s.calls && i != a.id
    ensures i in Next(s, a).calls && Next(s, a).calls[i].pc == s.calls[i].pc && Next(s, a).calls[i].op == s.calls[i].op
  {}

  lemma ZoneOutlives(s: System, a: Action, zone: string)
    requires Moves(s, a) && zone in s.zones && !Deleting(s, a.id, zone)
    ensures zone in Next(s, a).zones
  {}

  lemma ListingCovers(s: System, a: Action, zone: string, doomed: set<string>)
    requires Moves(s, a) && Live(s.records, zone) <= doomed && !Creating(s, a.id, zone)
    ensures Live(Next(s, a).records, zone) <= doomed
  {}

  ghost predicate AlwaysRooted(s: System, acts: seq<Action>) {
    Rooted(Run(s, acts)) && (acts == [] || AlwaysRooted(s, acts[..|acts| - 1]))
  }

  /**
   In every schedule in which no create of a record overlaps a delete of its zone, each stored record's zone exists at
   every point and no removed zone ever comes back, however the calls interleave otherwise.
   */
  lemma {:induction false} ApartKeepsRoots(s: System, acts: seq<Action>)
    requires Initial(s) && NoOverlap(s, acts)
    ensures AlwaysRooted(s, acts) && forall zone :: NeverBack(s, acts, zone)
    ensures Quiet(Run(s, acts))
  {
    if acts != [] {
      var init, a := acts[..|acts| - 1], acts[|acts| - 1];
      ApartKeepsRoots(s, init);
      RunKeepsShape(s, init);
      QuietKept(Run(s, init), a);
      forall zone ensures NeverBack(s, acts, zone) {
        assert NeverBack(s, init, zone) && FindsZone(Run(s, init), a, zone);
        StepKeepsGoneExactly(Run(s, init), a, zone);
      }
    }
  }

  // ---- From which states a record can still be orphaned ----

  /** A create that has not stored its record yet, and a delete that has not committed, both of zone. */
  ghost predicate Clash(s: System, i: nat, j: nat, zone: string) {
    && Creating(s, i, zone) && (s.calls[i].pc.ReadForCreate? || s.calls[i].pc.PutRecord?)
    && Deleting(s, j, zone)
  }

  /** The zone is stored, or a create is about to put it back. */
  ghost predicate Present(s: System, zone: string) {
    zone in s.zones || exists k :: Reviving(s, k, zone)
  }

  ghost predicate Reviving(s: System, k: nat, zone: string) {
    k in s.calls && s.calls[k].pc.PutZone? && s.calls[k].pc.zone == zone
  }

  ghost predicate OrphanWindow(s: System) {
    || (exists i :: LateStore(s, i))
    || (exists j :: StaleCascade(s, j))
    || (exists i, j, zone :: Clash(s, i, j, zone) && Present(s, zone))
  }

  predicate RunningOnly(acts: seq<Action>) {
    forall k :: 0 <= k < |acts| ==> !acts[k].Invoke? && !acts[k].CreateZone?
  }

  /** Some continuation of the calls now running, with no new one, leaves a stored record without its zone. */
  ghost predicate CanOrphan(s: System) {
    exists acts :: RunningOnly(acts) && !Rooted(Run(s, acts))
  }

  lemma {:induction false} RunCons(s: System, a: Action, acts: seq<Action>)
    ensures Run(s, [a] + acts) == Run(Next(s, a), acts)
  {
    var all := [a] + acts;
    if acts == [] {
      assert all[..0] == [];
    } else {
      assert all[..|all| - 1] == [a] + acts[..|acts| - 1];
      RunCons(s, a, acts[..|acts| - 1]);
    }
  }

  lemma OrphanLater(s: System, a: Action)
    requires a.Advance? && CanOrphan(Next(s, a))
    ensures CanOrphan(s)
  {
    var acts :| RunningOnly(acts) && !Rooted(Run(Next(s, a), acts));
    RunCons(s, a, acts);
    assert RunningOnly([a] + acts);
  }

  lemma OrphanNow(s: System, id: nat)
    requires Shape(s) && Rooted(s) && (LateStore(s, id) || StaleCascade(s, id))
    ensures CanOrphan(s)
  {
    StepRootsExactly(s, Advance(id));
    assert Run(Next(s, Advance(id)), []) == Next(s, Advance(id));
    assert RunningOnly([]);
    OrphanLater(s, Advance(id));
  }

  // ---- The window is enough ----

  /** Put, then cascade: the put makes the listing stale. */
  lemma PutThenCascade(s: System, i: nat, j: nat)
    requires Shape(s) && Rooted(s) && i in s.calls && s.calls[i].pc.PutRecord? && s.calls[i].pc.zone in s.zones
    requires j in s.calls && s.calls[j].op == DeleteZone(s.calls[i].pc.zone) && s.calls[j].pc.Cascade?
    ensures StaleCascade(Next(s, Advance(i)), j) && Rooted(Next(s, Advance(i)))
    ensures !Rooted(Next(Next(s, Advance(i)), Advance(j)))
  {
    assert CallOk(s, i) && CallOk(s, j);
    StepRootsExactly(s, Advance(i));
    var s1, u := Next(s, Advance(i)), s.calls[i].op.r.uuid;
    assert u in s.records ==> RecordOk(s, u);
    assert u in Live(s1.records, s.calls[i].pc.zone) && u !in s.calls[j].pc.doomed;
    OthersPcStays(s, Advance(i), j);
    NextKeepsShape(s, Advance(i));
    StepRootsExactly(s1, Advance(j));
  }

  function StepsLeft(s: System, i: nat, j: nat, zone: string): nat
    requires i in s.calls && j in s.calls
  {
    (if zone in s.zones then 0 else 1) + (if s.calls[i].pc.ReadForCreate? then 1 else 0)
    + (if s.calls[j].pc.ListForCascade? then 1 else 0)
  }

  lemma {:induction false} ClashOrphans(s: System, i: nat, j: nat, zone: string)
    requires Shape(s) && Rooted(s) && Clash(s, i, j, zone) && Present(s, zone)
    ensures CanOrphan(s)
    decreases StepsLeft(s, i, j, zone)
  {
    assert CallOk(s, i) && CallOk(s, j);
    if LateStore(s, i) {
      OrphanNow(s, i);
    } else if zone !in s.zones {
      var k :| Reviving(s, k, zone);
      ClashStep(s, k, i, j, zone);
      ClashOrphans(Next(s, Advance(k)), i, j, zone);
      OrphanLater(s, Advance(k));
    } else if s.calls[i].pc.ReadForCreate? {
      ClashStep(s, i, i, j, zone);
      ClashOrphans(Next(s, Advance(i)), i, j, zone);
      OrphanLater(s, Advance(i));
    } else if s.calls[j].pc.ListForCascade? {
      ClashStep(s, j, i, j, zone);
      ClashOrphans(Next(s, Advance(j)), i, j, zone);
      OrphanLater(s, Advance(j));
    } else {
      PutThenCascade(s, i, j);
      NextKeepsShape(s, Advance(i));
      OrphanNow(Next(s, Advance(i)), j);
      OrphanLater(s, Advance(i));
    }
  }

  /** The next step towards the orphan: put the zone back, read it, or list its records. */
  lemma ClashStep(s: System, k: nat, i: nat, j: nat, zone: string)
    requires Shape(s) && Rooted(s) && Clash(s, i, j, zone) && k in s.calls
    requires if zone !in s.zones then Reviving(s, k, zone) && s.calls[i].pc.ReadForCreate? else
      (k == i && s.calls[i].pc.ReadForCreate?) || (k == j && s.calls[j].pc.ListForCascade?)
    ensures
      var s' := Next(s, Advance(k));
      && Shape(s') && Rooted(s') && Clash(s', i, j, zone) && zone in s'.zones
      && StepsLeft(s', i, j, zone) < StepsLeft(s, i, j, zone)
  {
    assert CallOk(s, k) && CallOk(s, i) && CallOk(s, j);
    NextKeepsShape(s, Advance(k));
    StepRootsExactly(s, Advance(k));
    if k != i { OthersPcStays(s, Advance(k), i); }
    if k != j { OthersPcStays(s, Advance(k), j); }
  }

  // ---- The window is needed ----

  lemma NoLateStore(s: System, a: Action, i: nat)
    requires Shape(s) && Rooted(s) && !OrphanWindow(s) && Moves(s, a)
    ensures !LateStore(Next(s, a), i)
  {
    var s' := Next(s, a);
    if i in s.calls && s'.calls[i].pc.PutRecord? {
      assert CallOk(s, i) && CallOk(s, a.id) && !LateStore(s, i);
      if i == a.id {
        assert s.calls[i].op.r.zoneUUID in s.zones ==> ZoneOk(s, s.calls[i].op.r.zoneUUID);
      } else {
        OthersPcStays(s, a, i);
        var zone := s.calls[i].pc.zone;
        assert Deleting(s, a.id, zone) ==> Clash(s, i, a.id, zone) && Present(s, zone);
        ZoneOutlives(s, a, zone);
      }
    }
  }

  lemma NoStaleCascade(s: System, a: Action, j: nat)
    requires Shape(s) && Rooted(s) && !OrphanWindow(s) && Moves(s, a)
    ensures !StaleCascade(Next(s, a), j)
  {
    var s' := Next(s, a);
    if j in s.calls && s'.calls[j].pc.Cascade? && s'.calls[j].op.DeleteZone? && s'.calls[j].op.uuid in s'.zones {
      assert CallOk(s, j) && CallOk(s, a.id) && !StaleCascade(s, j) && !LateStore(s, a.id);
      if j != a.id {
        OthersPcStays(s, a, j);
        var zone := s.calls[j].op.uuid;
        LiveNeedsZone(s, zone);
        NoStoreBehind(s, a, j, zone);
      }
    }
  }

  lemma LiveNeedsZone(s: System, zone: string)
    requires Rooted(s)
    ensures zone !in s.zones ==> Live(s.records, zone) == {}
  {
    forall u | u in s.records ensures s.records[u].value.zoneUUID in s.zones { assert HasZone(s, u); }
  }

  lemma NoStoreBehind(s: System, a: Action, j: nat, zone: string)
    requires Shape(s) && Moves(s, a) && CallOk(s, a.id) && !LateStore(s, a.id) && !OrphanWindow(s)
    requires Deleting(s, j, zone) && j != a.id && s.calls[j].pc.Cascade? &&
      Live(s.records, zone) <= s.calls[j].pc.doomed
    ensures Live(Next(s, a).records, zone) <= s.calls[j].pc.doomed
  {
    var c := s.calls[a.id];
    if c.pc.PutRecord? && c.pc.zone == zone {
      assert Clash(s, a.id, j, zone) && Present(s, zone);
      assert false;
    }
  }

  lemma ClashBefore(s: System, a: Action, i: nat, j: nat, zone: string)
    requires Shape(s) && Moves(s, a) && Clash(Next(s, a), i, j, zone)
    ensures Clash(s, i, j, zone)
  {
    RunningBefore(s, a, i, zone);
    RunningBefore(s, a, j, zone);
    assert CallOk(s, i) && CallOk(s, j);
    if i != a.id { OthersPcStays(s, a, i); }
  }

  lemma NoNewClash(s: System, a: Action, i: nat, j: nat, zone: string)
    requires Shape(s) && Rooted(s) && !OrphanWindow(s) && Moves(s, a) && Clash(Next(s, a), i, j, zone)
    ensures !Present(Next(s, a), zone)
  {
    var s' := Next(s, a);
    ClashBefore(s, a, i, j, zone);
    assert !Present(s, zone);
    assert !Reviving(s, a.id, zone) && !LateStore(s, a.id);
    ZonesWritten(s, a);
    assert zone !in s'.zones;
    forall k ensures !Reviving(s', k, zone) {
      assert !Reviving(s, k, zone);
      if k != a.id && k in s.calls { OthersPcStays(s, a, k); }
    }
  }

  lemma StepKeepsWindowShut(s: System, a: Action)
    requires Shape(s) && Rooted(s) && !OrphanWindow(s) && !a.Invoke? && !a.CreateZone?
    ensures Rooted(Next(s, a)) && !OrphanWindow(Next(s, a))
  {
    StepRootsExactly(s, a);
    if Moves(s, a) {
      assert !LateStore(s, a.id) && !StaleCascade(s, a.id);
      var s' := Next(s, a);
      forall i ensures !LateStore(s', i) { NoLateStore(s, a, i); }
      forall j ensures !StaleCascade(s', j) { NoStaleCascade(s, a, j); }
      forall i, j, zone | Clash(s', i, j, zone) ensures !Present(s', zone) { NoNewClash(s, a, i, j, zone); }
    }
  }

  lemma {:induction false} RunKeepsWindowShut(s: System, acts: seq<Action>)
    requires Shape(s) && Rooted(s) && !OrphanWindow(s) && RunningOnly(acts)
    ensures Shape(Run(s, acts)) && Rooted(Run(s, acts)) && !OrphanWindow(Run(s, acts))
  {
    if acts != [] {
      var init, a := acts[..|acts| - 1], acts[|acts| - 1];
      RunKeepsWindowShut(s, init);
      NextKeepsShape(Run(s, init), a);
      StepKeepsWindowShut(Run(s, init), a);
    }
  }

  /**
   The exact condition on states, for every reachable one that is still sound: the calls now running can leave a record
   without its zone if and only if a create has yet to store a record in a zone whose delete has yet to commit and which
   is stored or about to be put back, or a put of a record is already late, or a cascade's listing is already stale.
   */
  lemma OrphanExactly(s: System)
    requires Shape(s) && Rooted(s)
    ensures CanOrphan(s) <==> OrphanWindow(s)
  {
    if OrphanWindow(s) {
      if i :| LateStore(s, i) {
        OrphanNow(s, i);
      } else if j :| StaleCascade(s, j) {
        OrphanNow(s, j);
      } else {
        var i, j, zone :| Clash(s, i, j, zone) && Present(s, zone);
        ClashOrphans(s, i, j, zone);
      }
    } else {
      forall acts | RunningOnly(acts) ensures Rooted(Run(s, acts)) { RunKeepsWindowShut(s, acts); }
    }
  }

  /** One overlap is enough: from every sound store, a create and a delete of its zone invoked together can orphan. */
  lemma OverlapCanOrphan(s: System, i: nat, j: nat, r: Rows.Record)
    requires Initial(s) && i != j && r.zoneUUID in s.zones && r.uuid !in s.usedRecords
    ensures CanOrphan(Next(Next(s, Invoke(i, CreateRecord(r))), Invoke(j, DeleteZone(r.zoneUUID))))
  {
    var m := Next(s, Invoke(i, CreateRecord(r)));
    var n := Next(m, Invoke(j, DeleteZone(r.zoneUUID)));
    NextKeepsShape(s, Invoke(i, CreateRecord(r)));
    NextKeepsShape(m, Invoke(j, DeleteZone(r.zoneUUID)));
    forall u | u in n.records ensures HasZone(n, u) { assert HasZone(s, u); }
    assert Clash(n, i, j, r.zoneUUID) && Present(n, r.zoneUUID);
    ClashOrphans(n, i, j, r.zoneUUID);
  }
}
