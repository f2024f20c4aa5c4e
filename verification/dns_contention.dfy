/** How far contention can take a DeleteRecord call of the etcd DNS store: eight lost races, and not one fewer. */
module DnsContention {
  import opened DnsProtocol
  import Rows = DnsStore

  /** The call has removed its record and is about to read its zone, which is there with a count. */
  ghost predicate Trying(s: System, id: nat, zone: string, attempt: nat) {
    && Shape(s) && id in s.calls && s.calls[id].pc == ReadZone(attempt, zone)
    && zone in s.zones && s.zones[zone].value.records > 0
  }

  /** The call has read its zone, and the zone is as it was read. */
  ghost predicate HasRead(s: System, id: nat, zone: string, attempt: nat) {
    && Shape(s) && id in s.calls && s.calls[id].pc.SwapZone? && s.calls[id].pc.zone == zone
    && s.calls[id].pc.attempt == attempt && zone in s.zones && s.zones[zone].value.records > 0
    && s.calls[id].pc.modRev == s.zones[zone].modRev
  }

  /** A create of a record in zone that has read the zone as it is; stored says whether its record is in yet. */
  ghost predicate Bumping(s: System, w: nat, r: Rows.Record, stored: bool) {
    && w in s.calls && s.calls[w].op == CreateRecord(r) && r.zoneUUID in s.zones
    && var kv := s.zones[r.zoneUUID];
       s.calls[w].pc == if stored then PutZone(r.zoneUUID, kv.modRev, kv.value)
         else PutRecord(r.zoneUUID, kv.modRev, kv.value)
  }

  lemma RunSnoc(s: System, acts: seq<Action>, a: Action)
    ensures Run(s, acts + [a]) == Next(Run(s, acts), a)
  {
    assert (acts + [a])[..|acts|] == acts;
  }

  // ---- One race, step by step ----

  /** What a step of another call leaves of id, the zones and the calls. */
  ghost predicate Aside(m: System, b: System, id: nat, w: nat)
    requires id in m.calls
  {
    && Shape(b) && id in b.calls && b.calls[id] == m.calls[id] && b.zones == m.zones
    && b.calls.Keys == m.calls.Keys + {w}
  }

  lemma ReadAfter(s: System, acts: seq<Action>, id: nat, zone: string, attempt: nat, acts': seq<Action>)
    requires Trying(Run(s, acts), id, zone, attempt) && acts' == acts + [Advance(id)]
    ensures
      var m, a := Run(s, acts), Run(s, acts');
      && HasRead(a, id, zone, attempt) && a.zones == m.zones && a.rev == m.rev && a.calls.Keys == m.calls.Keys
      && a.calls[id].rivals == m.calls[id].rivals && a.usedRecords == m.usedRecords
  {
    RunSnoc(s, acts, Advance(id));
    NextKeepsShape(Run(s, acts), Advance(id));
  }

  lemma JoinAfter(s: System, acts: seq<Action>, id: nat, w: nat, r: Rows.Record, acts': seq<Action>)
    requires Shape(Run(s, acts)) && id in Run(s, acts).calls && w !in Run(s, acts).calls
    requires r.uuid !in Run(s, acts).usedRecords && acts' == acts + [Invoke(w, CreateRecord(r))]
    ensures
      var m, b := Run(s, acts), Run(s, acts');
      && Aside(m, b, id, w) && b.usedRecords == m.usedRecords + {r.uuid}
      && b.calls[w].op == CreateRecord(r) && b.calls[w].pc == ReadForCreate
  {
    RunSnoc(s, acts, Invoke(w, CreateRecord(r)));
    NextKeepsShape(Run(s, acts), Invoke(w, CreateRecord(r)));
    assert Run(s, acts') == Enter(Run(s, acts), w, CreateRecord(r));
  }

  lemma LookAfter(s: System, acts: seq<Action>, id: nat, w: nat, r: Rows.Record, acts': seq<Action>)
    requires Shape(Run(s, acts)) && id in Run(s, acts).calls && w in Run(s, acts).calls && id != w
    requires Run(s, acts).calls[w].op == CreateRecord(r) && Run(s, acts).calls[w].pc == ReadForCreate
    requires r.zoneUUID in Run(s, acts).zones && acts' == acts + [Advance(w)]
    ensures
      var m, b := Run(s, acts), Run(s, acts');
      Aside(m, b, id, w) && b.usedRecords == m.usedRecords && Bumping(b, w, r, false)
  {
    var m := Run(s, acts);
    RunSnoc(s, acts, Advance(w));
    NextKeepsShape(m, Advance(w));
    assert ZoneOk(m, r.zoneUUID);
    var kv := m.zones[r.zoneUUID];
    assert Run(s, acts') == Apply(m, w, PutRecord(r.zoneUUID, kv.modRev, kv.value), Nothing);
    assert m.calls.Keys + {w} == m.calls.Keys;
  }

  lemma StoreAfter(s: System, acts: seq<Action>, id: nat, w: nat, r: Rows.Record, acts': seq<Action>)
    requires Shape(Run(s, acts)) && id in Run(s, acts).calls && id != w
    requires Bumping(Run(s, acts), w, r, false) && acts' == acts + [Advance(w)]
    ensures
      var m, b := Run(s, acts), Run(s, acts');
      Aside(m, b, id, w) && b.usedRecords == m.usedRecords && Bumping(b, w, r, true)
  {
    var m := Run(s, acts);
    RunSnoc(s, acts, Advance(w));
    NextKeepsShape(m, Advance(w));
    assert CallOk(m, w);
    assert r.uuid in m.records ==> RecordOk(m, r.uuid);
    var kv := m.zones[r.zoneUUID];
    assert Run(s, acts') == Apply(m, w, PutZone(r.zoneUUID, kv.modRev, kv.value), Store(r.(zoneName := kv.value.name)));
    assert m.calls.Keys + {w} == m.calls.Keys;
  }

  /** The create's put of the zone: the zone moves on, and a call trying to decrement it has met a rival. */
  lemma PutAfter(s: System, acts: seq<Action>, id: nat, w: nat, r: Rows.Record, acts': seq<Action>)
    requires Shape(Run(s, acts)) && id in Run(s, acts).calls && id != w
    requires Pending(Run(s, acts).calls[id].pc, r.zoneUUID)
    requires Bumping(Run(s, acts), w, r, true) && Run(s, acts).zones[r.zoneUUID].value.records > 0
    requires acts' == acts + [Advance(w)]
    ensures
      var m, b := Run(s, acts), Run(s, acts');
      && Shape(b) && b.calls.Keys == m.calls.Keys && b.usedRecords == m.usedRecords
      && b.calls[id] == m.calls[id].(rivals := m.calls[id].rivals + {w})
      && r.zoneUUID in b.zones && b.zones[r.zoneUUID].modRev == m.rev + 1
      && b.zones[r.zoneUUID].value.records == m.zones[r.zoneUUID].value.records + 1
  {
    var m := Run(s, acts);
    RunSnoc(s, acts, Advance(w));
    NextKeepsShape(m, Advance(w));
    var z := m.zones[r.zoneUUID].value;
    assert Run(s, acts') == Apply(m, w, Done(Created), SetZone(r.zoneUUID, z.(records := z.records + 1)));
  }

  /** The swap is turned down: the call goes round again, or gives up after the eighth time. */
  lemma TurnedDownAfter(s: System, acts: seq<Action>, id: nat, zone: string, attempt: nat, acts': seq<Action>)
    requires Shape(Run(s, acts)) && id in Run(s, acts).calls && Run(s, acts).calls[id].pc.SwapZone?
    requires Run(s, acts).calls[id].pc.zone == zone && Run(s, acts).calls[id].pc.attempt == attempt < 8
    requires zone in Run(s, acts).zones && Run(s, acts).zones[zone].value.records > 0
    requires Run(s, acts).calls[id].pc.modRev != Run(s, acts).zones[zone].modRev && acts' == acts + [Advance(id)]
    ensures
      var m, b := Run(s, acts), Run(s, acts');
      && Shape(b) && b.calls.Keys == m.calls.Keys && b.calls[id].rivals == m.calls[id].rivals
      && b.usedRecords == m.usedRecords && zone in b.zones && b.zones[zone].value.records > 0
      && b.calls[id].pc == if attempt + 1 < 8 then ReadZone(attempt + 1, zone) else Done(GaveUp(zone))
  {
    RunSnoc(s, acts, Advance(id));
    NextKeepsShape(Run(s, acts), Advance(id));
  }

  lemma ReadIsOld(m: System, id: nat, zone: string, attempt: nat)
    requires HasRead(m, id, zone, attempt)
    ensures m.calls[id].pc.modRev <= m.rev
  {
    assert CallOk(m, id);
  }

  lemma RevGrows(s: System, acts: seq<Action>, a: Action)
    ensures Run(s, acts).rev <= Run(s, acts + [a]).rev
  {
    RunSnoc(s, acts, a);
  }

  // ---- Lost races ----

  /** What lost races with the creates ws leave of the call. */
  ghost predicate LostAll(s: System, b: System, id: nat, zone: string, ids: set<nat>, uuids: set<string>, attempt: nat)
    requires id in s.calls
  {
    && Shape(b) && id in b.calls && b.calls.Keys == s.calls.Keys + ids && b.calls[id].rivals == s.calls[id].rivals + ids
    && b.usedRecords == s.usedRecords + uuids && zone in b.zones && b.zones[zone].value.records > 0
    && b.calls[id].pc == if attempt < 8 then ReadZone(attempt, zone) else Done(GaveUp(zone))
  }

  /** The call reads, a create bumps the zone in between, and the call's swap is turned down. */
  lemma LostRound(s: System, acts: seq<Action>, id: nat, zone: string, w: nat, r: Rows.Record, attempt: nat)
    returns (acts': seq<Action>)
    requires Trying(Run(s, acts), id, zone, attempt) && w !in Run(s, acts).calls && attempt < 8
    requires r.uuid !in Run(s, acts).usedRecords && r.zoneUUID == zone
    ensures LostAll(Run(s, acts), Run(s, acts'), id, zone, {w}, {r.uuid}, attempt + 1)
  {
    var acts1 := acts + [Advance(id)];
    ReadAfter(s, acts, id, zone, attempt, acts1);
    ReadIsOld(Run(s, acts1), id, zone, attempt);
    var acts2 := acts1 + [Invoke(w, CreateRecord(r))];
    JoinAfter(s, acts1, id, w, r, acts2);
    RevGrows(s, acts1, Invoke(w, CreateRecord(r)));
    var acts3 := acts2 + [Advance(w)];
    LookAfter(s, acts2, id, w, r, acts3);
    RevGrows(s, acts2, Advance(w));
    var acts4 := acts3 + [Advance(w)];
    StoreAfter(s, acts3, id, w, r, acts4);
    RevGrows(s, acts3, Advance(w));
    var acts5 := acts4 + [Advance(w)];
    PutAfter(s, acts4, id, w, r, acts5);
    acts' := acts5 + [Advance(id)];
    TurnedDownAfter(s, acts5, id, zone, attempt, acts');
  }

  /** Other calls to come: different fresh ids, records with different fresh uuids, all in one zone. */
  ghost predicate Rivals(s: System, zone: string, ws: seq<nat>, rs: seq<Rows.Record>) {
    && |rs| == |ws|
    && (forall i :: 0 <= i < |ws| ==> ws[i] !in s.calls && rs[i].uuid !in s.usedRecords && rs[i].zoneUUID == zone)
    && (forall i, j :: 0 <= i < j < |ws| ==> ws[i] != ws[j] && rs[i].uuid != rs[j].uuid)
  }

  function Ids(ws: seq<nat>, n: nat): set<nat>
    requires n <= |ws|
  {
    set i | 0 <= i < n :: ws[i]
  }

  function UUIDs(rs: seq<Rows.Record>, n: nat): set<string>
    requires n <= |rs|
  {
    set i | 0 <= i < n :: rs[i].uuid
  }

  lemma LostOneMore(s: System, m: System, b: System, id: nat, zone: string, ws: seq<nat>, rs: seq<Rows.Record>, n: nat)
    requires id in s.calls && n < |ws| == |rs|
    requires LostAll(s, m, id, zone, Ids(ws, n), UUIDs(rs, n), n)
    requires LostAll(m, b, id, zone, {ws[n]}, {rs[n].uuid}, n + 1)
    ensures LostAll(s, b, id, zone, Ids(ws, n + 1), UUIDs(rs, n + 1), n + 1)
  {
    assert Ids(ws, n + 1) == Ids(ws, n) + {ws[n]};
    assert UUIDs(rs, n + 1) == UUIDs(rs, n) + {rs[n].uuid};
  }

  lemma NoneLost(s: System, id: nat, zone: string, ws: seq<nat>, rs: seq<Rows.Record>)
    requires Trying(s, id, zone, 0)
    ensures LostAll(s, s, id, zone, Ids(ws, 0), UUIDs(rs, 0), 0)
  {
    assert Ids(ws, 0) == {} && UUIDs(rs, 0) == {};
  }

  lemma {:induction false} LoseMany(s: System, id: nat, zone: string, ws: seq<nat>, rs: seq<Rows.Record>, n: nat)
    returns (acts: seq<Action>)
    requires Trying(s, id, zone, 0) && Rivals(s, zone, ws, rs) && n <= |ws| <= 8
    ensures LostAll(s, Run(s, acts), id, zone, Ids(ws, n), UUIDs(rs, n), n)
  {
    if n == 0 {
      acts := [];
      NoneLost(s, id, zone, ws, rs);
    } else {
      var before := LoseMany(s, id, zone, ws, rs, n - 1);
      acts := LoseNext(s, before, id, zone, ws, rs, n - 1);
    }
  }

  lemma LoseNext(s: System, acts: seq<Action>, id: nat, zone: string, ws: seq<nat>, rs: seq<Rows.Record>, n: nat)
    returns (acts': seq<Action>)
    requires id in s.calls && Rivals(s, zone, ws, rs) && n < |ws| <= 8
    requires LostAll(s, Run(s, acts), id, zone, Ids(ws, n), UUIDs(rs, n), n)
    ensures LostAll(s, Run(s, acts'), id, zone, Ids(ws, n + 1), UUIDs(rs, n + 1), n + 1)
  {
    var m := Run(s, acts);
    assert ws[n] !in Ids(ws, n) && rs[n].uuid !in UUIDs(rs, n);
    acts' := LostRound(s, acts, id, zone, ws[n], rs[n], n);
    LostOneMore(s, m, Run(s, acts'), id, zone, ws, rs, n);
  }

  /** From any state with a call at its first read, eight other writers of the zone can make it give up. */
  lemma EightRivalsCanExhaust(s: System, id: nat, zone: string, ws: seq<nat>, rs: seq<Rows.Record>)
    returns (acts: seq<Action>)
    requires Trying(s, id, zone, 0) && Rivals(s, zone, ws, rs) && |ws| == 8
    ensures
      var b := Run(s, acts);
      && id in b.calls && b.calls[id].pc == Done(GaveUp(zone)) && b.calls.Keys == s.calls.Keys + Ids(ws, 8)
      && b.calls[id].rivals == s.calls[id].rivals + Ids(ws, 8)
  {
    acts := LoseMany(s, id, zone, ws, rs, 8);
  }

  /** Left alone at any attempt, the call decrements the count. */
  lemma AloneItDecrements(s: System, id: nat, zone: string, attempt: nat)
    requires Trying(s, id, zone, attempt)
    ensures
      var b := Next(Next(s, Advance(id)), Advance(id));
      && id in b.calls && b.calls[id].pc == Done(Decremented(zone)) && zone in b.zones
      && b.zones[zone].value == s.zones[zone].value.(records := s.zones[zone].value.records - 1)
  {
    var kv := s.zones[zone];
    var z := kv.value.(records := kv.value.records - 1);
    var a := Next(s, Advance(id));
    assert a == Apply(s, id, SwapZone(attempt, zone, kv.modRev, z), Nothing);
    assert Next(a, Advance(id)) == Apply(a, id, Done(Decremented(zone)), SetZone(zone, z));
  }

  /** Any seven lost races are survived: left alone after them, the call decrements the count. */
  lemma SevenRivalsAreSurvived(s: System, id: nat, zone: string, ws: seq<nat>, rs: seq<Rows.Record>)
    returns (acts: seq<Action>)
    requires Trying(s, id, zone, 0) && Rivals(s, zone, ws, rs) && |ws| == 7
    ensures
      var m := Run(s, acts);
      var b := Next(Next(m, Advance(id)), Advance(id));
      && id in m.calls && m.calls[id].rivals == s.calls[id].rivals + Ids(ws, 7)
      && id in b.calls && b.calls[id].pc == Done(Decremented(zone))
  {
    acts := LoseMany(s, id, zone, ws, rs, 7);
    AloneItDecrements(Run(s, acts), id, zone, 7);
  }
}
