/**
 The two feeds of the floating-IP index: the platform's events, taken one at a time, and the snapshots of the poller.
 What each does to the table, and what that means for who is announced where.
 */
module FipFeed {
  import opened FipIndex

  // ---- Events ----

  datatype PlatformEvent = PlatformEvent(kind: string, subject: string, projectUUID: string, meta: map<string, string>)

  function Meta(ev: PlatformEvent, key: string): string {
    if key in ev.meta then ev.meta[key] else ""
  }

  function EntryOf(ev: PlatformEvent): Entry {
    Entry(ev.subject, ev.projectUUID, Meta(ev, "network_uuid"), Meta(ev, "address"), false,
          Meta(ev, "target_kind"), Meta(ev, "target"))
  }

  const ALLOCATED := "floating_ip.allocated"
  const MAPPED := "floating_ip.mapped"
  const UNMAPPED := "floating_ip.unmapped"
  const RELEASED := "floating_ip.released"

  /** The four-event state machine, as a function on the table. */
  function ApplyEvent(t: Table, ev: PlatformEvent): Table {
    var e := EntryOf(ev);
    if ev.kind == ALLOCATED || ev.kind == UNMAPPED then t[ev.subject := e.(targetKind := "", target := "")]
    else if ev.kind == MAPPED then t[ev.subject := e.(mapped := true)]
    else if ev.kind == RELEASED then t - {ev.subject}
    else t
  }

  predicate Upserts(ev: PlatformEvent) {
    ev.kind == ALLOCATED || ev.kind == MAPPED || ev.kind == UNMAPPED
  }

  function ApplyEvents(t: Table, evs: seq<PlatformEvent>): Table {
    if evs == [] then t
    else ApplyEvent(ApplyEvents(t, evs[..|evs| - 1]), evs[|evs| - 1])
  }

  // ---- What an event means ----

  /** The event names network n and address a; an absent key names nothing. */
  ghost predicate Names(ev: PlatformEvent, n: string, a: string) {
    && "network_uuid" in ev.meta && ev.meta["network_uuid"] == n
    && "address" in ev.meta && ev.meta["address"] == a
  }

  ghost predicate SameAt(t: Table, t': Table, u: string) {
    (u in t' <==> u in t) && (u in t' ==> t'[u] == t[u])
  }

  /** What an event does, kind by kind, to who is active where; every other floating IP is left alone. */
  ghost predicate EventEffect(t: Table, ev: PlatformEvent, t': Table) {
    var u := ev.subject;
    && (forall v :: v != u ==> SameAt(t, t', v))
    && (ev.kind == "floating_ip.mapped" ==>
         forall n, a :: n != "" && a != "" ==> (ActiveAt(t', u, n, a) <==> Names(ev, n, a)))
    && (ev.kind == "floating_ip.allocated" || ev.kind == "floating_ip.unmapped" || ev.kind == "floating_ip.released" ==>
         forall n, a :: !ActiveAt(t', u, n, a))
    && (ev.kind == "floating_ip.released" ==> u !in t')
    && (ev.kind == "floating_ip.allocated" || ev.kind == "floating_ip.mapped" || ev.kind == "floating_ip.unmapped" ==>
         u in t' && DescribedBy(t'[u], ev))
    && (ev.kind !in {"floating_ip.allocated", "floating_ip.mapped", "floating_ip.unmapped", "floating_ip.released"} ==>
         t' == t)
  }

  /** The entry carries the event's fields; only a mapped one keeps its target. */
  ghost predicate DescribedBy(e: Entry, ev: PlatformEvent) {
    && e.uuid == ev.subject && e.projectUUID == ev.projectUUID && (e.mapped <==> ev.kind == "floating_ip.mapped")
    && Carries(ev, "network_uuid", e.networkUUID) && Carries(ev, "address", e.address)
    && (if e.mapped then Carries(ev, "target_kind", e.targetKind) && Carries(ev, "target", e.target)
        else e.targetKind == "" && e.target == "")
  }

  ghost predicate Carries(ev: PlatformEvent, key: string, value: string) {
    if key in ev.meta then value == ev.meta[key] else value == ""
  }

  lemma EventMeaning(t: Table, ev: PlatformEvent)
    ensures EventEffect(t, ev, ApplyEvent(t, ev))
  {}

  /** The event is of one of the four kinds, and about u. */
  ghost predicate Concerns(ev: PlatformEvent, u: string) {
    && ev.subject == u
    && ev.kind in {"floating_ip.allocated", "floating_ip.mapped", "floating_ip.unmapped", "floating_ip.released"}
  }

  /** Event k is the last one about u. */
  ghost predicate LastAbout(evs: seq<PlatformEvent>, u: string, k: int) {
    && 0 <= k < |evs| && Concerns(evs[k], u)
    && forall m :: k < m < |evs| ==> !Concerns(evs[m], u)
  }

  ghost predicate NoneAbout(evs: seq<PlatformEvent>, u: string) {
    forall m :: 0 <= m < |evs| ==> !Concerns(evs[m], u)
  }

  /** The last event about u maps it on network n under address a. */
  ghost predicate LastMaps(evs: seq<PlatformEvent>, u: string, n: string, a: string) {
    exists k :: LastAbout(evs, u, k) && evs[k].kind == "floating_ip.mapped" && Names(evs[k], n, a)
  }

  lemma LastAboutSnoc(evs: seq<PlatformEvent>, ev: PlatformEvent, u: string, n: string, a: string)
    ensures Concerns(ev, u) ==>
      (LastMaps(evs + [ev], u, n, a) <==> ev.kind == "floating_ip.mapped" && Names(ev, n, a))
      && !NoneAbout(evs + [ev], u)
    ensures !Concerns(ev, u) ==>
      (LastMaps(evs + [ev], u, n, a) <==> LastMaps(evs, u, n, a)) && (NoneAbout(evs + [ev], u) <==> NoneAbout(evs, u))
  {
    var all := evs + [ev];
    assert all[|evs|] == ev && forall m :: 0 <= m < |evs| ==> all[m] == evs[m];
    if Concerns(ev, u) {
      forall k ensures LastAbout(all, u, k) <==> k == |evs| {
        if k < |evs| { assert Concerns(all[|evs|], u); }
      }
    } else {
      forall k ensures LastAbout(all, u, k) <==> LastAbout(evs, u, k) {
        if LastAbout(all, u, k) {
          assert k != |evs|;
          forall m | k < m < |evs| ensures !Concerns(evs[m], u) { assert !Concerns(all[m], u); }
        }
      }
      assert NoneAbout(all, u) <==> NoneAbout(evs, u) by {
        assert NoneAbout(all, u) ==> forall m :: 0 <= m < |evs| ==> !Concerns(all[m], u);
      }
    }
  }

  lemma EventAt(t: Table, ev: PlatformEvent, t': Table, u: string, n: string, a: string)
    requires EventEffect(t, ev, t') && n != "" && a != ""
    ensures Concerns(ev, u) ==> (ActiveAt(t', u, n, a) <==> ev.kind == "floating_ip.mapped" && Names(ev, n, a))
    ensures !Concerns(ev, u) ==> (ActiveAt(t', u, n, a) <==> ActiveAt(t, u, n, a))
  {
    if ev.subject != u { assert SameAt(t, t', u); }
  }

  /**
   What a history means: a floating IP is active on a network under an address if and only if the last event about it
   maps it there, or no event was about it and it was so before.
   */
  lemma {:induction false} HistoryMeaning(t: Table, evs: seq<PlatformEvent>, u: string, n: string, a: string)
    requires n != "" && a != ""
    ensures ActiveAt(ApplyEvents(t, evs), u, n, a) <==>
      LastMaps(evs, u, n, a) || (NoneAbout(evs, u) && ActiveAt(t, u, n, a))
  {
    if evs != [] {
      var init, ev := evs[..|evs| - 1], evs[|evs| - 1];
      assert evs == init + [ev];
      HistoryMeaning(t, init, u, n, a);
      LastAboutSnoc(init, ev, u, n, a);
      EventMeaning(ApplyEvents(t, init), ev);
      assert ApplyEvents(t, evs) == ApplyEvent(ApplyEvents(t, init), ev);
      EventAt(ApplyEvents(t, init), ev, ApplyEvents(t, evs), u, n, a);
    }
  }

  // ---- Snapshots ----

  datatype SourceFIP = SourceFIP(
    uuid: string, address: string, networkUUID: string, projectUUID: string, mappedTo: string, status: string)

  function EntryFrom(it: SourceFIP): Entry {
    Entry(it.uuid, it.projectUUID, it.networkUUID, it.address, it.status == "active", "", it.mappedTo)
  }

  function EntriesFrom(items: seq<SourceFIP>): seq<Entry> {
    seq(|items|, i requires 0 <= i < |items| => EntryFrom(items[i]))
  }

  predicate DistinctItems(items: seq<SourceFIP>) {
    DistinctUUIDs(EntriesFrom(items))
  }

  /** The item says its floating IP is active on n under a. */
  ghost predicate Lists(items: seq<SourceFIP>, u: string, n: string, a: string) {
    exists it :: it in items && it.uuid == u && it.status == "active" && it.networkUUID == n && it.address == a
  }

  /** The addresses a snapshot lists as active on n. */
  ghost function ListedOn(items: seq<SourceFIP>, n: string): set<string> {
    set it | it in items && it.networkUUID == n && it.status == "active" && it.address != "" :: it.address
  }

  /** What a table taken from a snapshot holds: the items, field by field, and nothing else. */
  ghost predicate HoldsSnapshot(t: Table, items: seq<SourceFIP>) {
    && (forall it :: it in items ==>
         && it.uuid in t && t[it.uuid].uuid == it.uuid && t[it.uuid].projectUUID == it.projectUUID
         && t[it.uuid].target == it.mappedTo && t[it.uuid].targetKind == ""
         && t[it.uuid].networkUUID == it.networkUUID && t[it.uuid].address == it.address
         && (t[it.uuid].mapped <==> it.status == "active"))
    && (forall u :: u in t ==> exists it :: it in items && it.uuid == u)
    && (forall u, n, a :: n != "" && a != "" ==> (ActiveAt(t, u, n, a) <==> Lists(items, u, n, a)))
    && (forall n :: n != "" ==> AddrSet(t, n) == ListedOn(items, n))
  }

  lemma SnapshotMeaning(items: seq<SourceFIP>)
    requires DistinctItems(items)
    ensures HoldsSnapshot(TableOf(EntriesFrom(items)), items)
  {
    var entries := EntriesFrom(items);
    var t := TableOf(entries);
    TableOfContents(entries);
    forall it | it in items ensures it.uuid in t && t[it.uuid] == EntryFrom(it) {
      var i :| 0 <= i < |items| && items[i] == it;
      assert entries[i] == EntryFrom(it) && entries[i] in entries;
    }
    forall u | u in t ensures exists it :: it in items && it.uuid == u && t[u] == EntryFrom(it) {
      var e :| e in entries && e.uuid == u;
      var i :| 0 <= i < |entries| && entries[i] == e;
      assert items[i] in items && items[i].uuid == u;
    }
    forall u, n, a | n != "" && a != "" ensures ActiveAt(t, u, n, a) <==> Lists(items, u, n, a) {}
    forall n | n != "" ensures AddrSet(t, n) == ListedOn(items, n) { ListedAddresses(t, items, n); }
  }

  lemma ListedAddresses(t: Table, items: seq<SourceFIP>, n: string)
    requires n != "" && forall u, m, a :: m != "" && a != "" ==> (ActiveAt(t, u, m, a) <==> Lists(items, u, m, a))
    ensures AddrSet(t, n) == ListedOn(items, n)
  {
    AddrSetMeaning(t, n);
    forall a ensures a in AddrSet(t, n) <==> a in ListedOn(items, n) {
      if a in AddrSet(t, n) {
        var u :| ActiveAt(t, u, n, a);
        assert Lists(items, u, n, a);
      }
      if a in ListedOn(items, n) {
        var it :| it in items && it.networkUUID == n && it.status == "active" && it.address != "" && it.address == a;
        assert Lists(items, it.uuid, n, a);
      }
    }
  }

  // ---- The two feeds agree ----

  /** The snapshot lists exactly what the events left active, wherever a network and an address are known. */
  ghost predicate SnapshotOf(items: seq<SourceFIP>, evs: seq<PlatformEvent>) {
    forall u, n, a :: n != "" && a != "" ==> (Lists(items, u, n, a) <==> LastMaps(evs, u, n, a))
  }

  lemma SameActiveSameUuids(t: Table, t': Table, nets: set<string>)
    requires forall u, n, a :: n != "" && a != "" ==> (ActiveAt(t, u, n, a) <==> ActiveAt(t', u, n, a))
    ensures ActiveOver(t, nets) == ActiveOver(t', nets)
    ensures forall a :: Holders(t, ActiveOver(t, nets), a) == Holders(t', ActiveOver(t', nets), a)
  {
    forall u ensures u in ActiveOver(t, nets) <==> u in ActiveOver(t', nets) {
      if u in ActiveOver(t, nets) { assert ActiveAt(t', u, t[u].networkUUID, t[u].address); }
      if u in ActiveOver(t', nets) { assert ActiveAt(t, u, t'[u].networkUUID, t'[u].address); }
    }
    forall u | u in ActiveOver(t, nets) ensures t[u].address == t'[u].address {
      assert ActiveAt(t', u, t[u].networkUUID, t[u].address);
    }
  }

  /** A snapshot of what a history of events left serves the same lookups as the index that followed the events. */
  lemma FeedsAgree(items: seq<SourceFIP>, evs: seq<PlatformEvent>, nets: set<string>, out: seq<string>)
    requires DistinctItems(items) && SnapshotOf(items, evs)
    ensures IsLookup(TableOf(EntriesFrom(items)), nets, out) <==> IsLookup(ApplyEvents(map[], evs), nets, out)
  {
    var t, t' := TableOf(EntriesFrom(items)), ApplyEvents(map[], evs);
    SnapshotMeaning(items);
    forall u, n, a | n != "" && a != "" ensures ActiveAt(t, u, n, a) <==> ActiveAt(t', u, n, a) {
      HistoryMeaning(map[], evs, u, n, a);
    }
    SameActiveSameUuids(t, t', nets);
    assert ActiveOver(t, nets) == ActiveOver(t', nets);
    assert Tally(t, ActiveOver(t, nets), out) <==> Tally(t', ActiveOver(t', nets), out);
  }
}
