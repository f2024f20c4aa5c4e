/**
 The announce pipeline: event subscriber, poller, republish callback and router handlers over one index, one
 router store and one publisher. The invariant kept by every step is that the last message sent for each
 router agrees with its desired state recomputed from the current table.
 */
module Pipeline {
  import opened Wrappers
  import opened ExternalPeer
  import opened FipFeed
  import opened FipIndex
  import opened RouterStore
  import opened Publisher
  import opened Text
  import FipViews
  import Listing

  type Wire = map<string, DesiredState>

  type Routers = map<string, Router>

  // ---- Agreement between the wire and the table ----

  /** The last message for r has the peers of its desired state and the same set of prefixes. */
  ghost predicate Agrees(lib: IpLib, r: Router, t: Table, wire: Wire)
    requires Announces(lib, r)
  {
    && SubjectFor(r.uuid) in wire
    && wire[SubjectFor(r.uuid)].peers == [ParseExternalPeer(lib, r.external).value]
    && PrefixSet(wire[SubjectFor(r.uuid)]) == AnnouncedSet(lib, r, t)
  }

  /** Nothing is announced on the subject. */
  ghost predicate Silent(uuid: string, wire: Wire) {
    SubjectFor(uuid) !in wire || wire[SubjectFor(uuid)] == EMPTY_STATE
  }

  ghost predicate SyncedAt(lib: IpLib, rs: Routers, t: Table, wire: Wire, stale: set<string>, u: string) {
    if u in rs && Announces(lib, rs[u]) then StitchesAny(rs[u], stale) || Agrees(lib, rs[u], t, wire)
      else Silent(u, wire)
  }

  /**
   Every announcing router that stitches no stale network has a message that agrees with the table; every other uuid,
   live or deleted, is silent. Stale networks are those whose announce set changed without anyone being told.
   */
  ghost predicate InSyncBut(lib: IpLib, rs: Routers, t: Table, wire: Wire, stale: set<string>) {
    forall u :: SyncedAt(lib, rs, t, wire, stale, u)
  }

  /** With no stale network, every announcing router's message agrees with the table. */
  ghost predicate InSync(lib: IpLib, rs: Routers, t: Table, wire: Wire) {
    InSyncBut(lib, rs, t, wire, {})
  }

  ghost predicate DeliveredAt(lib: IpLib, rs: Routers, sent: map<string, Table>, wire: Wire, u: string) {
    u in rs && Announces(lib, rs[u]) ==> u in sent && Agrees(lib, rs[u], sent[u], wire)
  }

  /** Every announcing router's last message is its desired state on the table it was last sent from. */
  ghost predicate Delivered(lib: IpLib, rs: Routers, sent: map<string, Table>, wire: Wire) {
    forall u :: DeliveredAt(lib, rs, sent, wire, u)
  }

  /** The tables last sent from, after re-sending the chosen routers from t. */
  function SentTo(sent: map<string, Table>, chosen: set<string>, t: Table): map<string, Table> {
    map u | u in sent.Keys + chosen :: if u in chosen then t else sent[u]
  }

  predicate Stitches(r: Router, network: string) {
    exists i :: 0 <= i < |r.networks| && r.networks[i] == network
  }

  ghost predicate StitchesAny(r: Router, networks: set<string>) {
    exists n :: n in networks && Stitches(r, n)
  }

  ghost predicate Keyed(rs: Routers) {
    forall u :: u in rs ==> rs[u].uuid == u
  }

  /** The two wires carry the same on uuid's subject. */
  ghost predicate Untouched(uuid: string, before: Wire, after: Wire) {
    var s := SubjectFor(uuid);
    (s in after <==> s in before) && (s in after ==> after[s] == before[s])
  }

  ghost predicate ResentAt(lib: IpLib, rs: Routers, t: Table, chosen: set<string>, before: Wire, after: Wire,
    u: string) {
    if u in rs && u in chosen && Announces(lib, rs[u]) then Agrees(lib, rs[u], t, after)
    else Untouched(u, before, after)
  }

  /** Announcing routers in chosen were re-sent from table t; no other uuid was touched. */
  ghost predicate Resent(lib: IpLib, rs: Routers, t: Table, chosen: set<string>, before: Wire, after: Wire) {
    forall u :: ResentAt(lib, rs, t, chosen, before, after, u)
  }

  lemma NothingResent(lib: IpLib, rs: Routers, t: Table, wire: Wire)
    ensures Resent(lib, rs, t, {}, wire, wire)
  {}

  ghost function Stitching(rs: Routers, networks: set<string>): set<string> {
    set u | u in rs && StitchesAny(rs[u], networks)
  }

  /** A router none of whose networks changed keeps its announce set. */
  lemma UnstitchedKeepsAnnounceSet(lib: IpLib, r: Router, before: Table, after: Table, changed: set<string>)
    requires forall n :: n != "" && n !in changed ==> AddrSet(before, n) == AddrSet(after, n)
    requires !StitchesAny(r, changed)
    ensures AnnouncedSet(lib, r, before) == AnnouncedSet(lib, r, after)
  {
    assert forall n :: n in r.networks ==> Stitches(r, n);
    assert FipRoutes(lib, r.networks, before) == FipRoutes(lib, r.networks, after);
  }

  /**
   Re-sending every router that stitches a network in sent makes those agree; what changed elsewhere, in missed, stays
   stale, and so does what was stale before and not re-sent.
   */
  lemma ResendRestoresSync(lib: IpLib, rs: Routers, before: Table, after: Table, sent: set<string>, missed: set<string>,
                           stale: set<string>, wire: Wire, wire': Wire)
    requires Keyed(rs) && InSyncBut(lib, rs, before, wire, stale)
    requires forall n :: n != "" && n !in sent && n !in missed ==> AddrSet(before, n) == AddrSet(after, n)
    requires Resent(lib, rs, after, Stitching(rs, sent), wire, wire')
    ensures InSyncBut(lib, rs, after, wire', stale + missed - sent)
  {
    forall u ensures SyncedAt(lib, rs, after, wire', stale + missed - sent, u) {
      assert SyncedAt(lib, rs, before, wire, stale, u);
      assert ResentAt(lib, rs, after, Stitching(rs, sent), wire, wire', u);
      if u in rs && Announces(lib, rs[u]) && u !in Stitching(rs, sent) {
        StitchesLeft(rs[u], sent, stale + missed);
        if !StitchesAny(rs[u], stale + missed) {
          assert !StitchesAny(rs[u], sent + missed);
          UnstitchedKeepsAnnounceSet(lib, rs[u], before, after, sent + missed);
        }
      }
    }
  }

  lemma StitchesLeft(r: Router, sent: set<string>, networks: set<string>)
    requires !StitchesAny(r, sent)
    ensures StitchesAny(r, networks) <==> StitchesAny(r, networks - sent)
  {
    if n :| n in networks && Stitches(r, n) { assert n in networks - sent; }
  }

  /**
   What a poll heals, exactly: after it, an announcing router agrees if and only if it was re-sent or agreed before. A
   poll compares tables, not messages, so an unchanged snapshot re-sends nothing and heals nothing.
   */
  lemma TickHealsExactly(lib: IpLib, rs: Routers, before: Table, after: Table, changed: set<string>,
                         wire: Wire, wire': Wire, u: string)
    requires IsChangeSet(before, after, changed) && Resent(lib, rs, after, Stitching(rs, changed), wire, wire')
    requires Keyed(rs) && u in rs && Announces(lib, rs[u])
    ensures Agrees(lib, rs[u], after, wire') <==> StitchesAny(rs[u], changed) || Agrees(lib, rs[u], before, wire)
    ensures before == after ==>
      changed == {} && (Agrees(lib, rs[u], after, wire') <==> Agrees(lib, rs[u], before, wire))
  {
    assert ResentAt(lib, rs, after, Stitching(rs, changed), wire, wire', u);
    if !StitchesAny(rs[u], changed) {
      UnstitchedKeepsAnnounceSet(lib, rs[u], before, after, changed);
    }
  }

  /** Re-sending records the table it was done from, whatever was sent before. */
  lemma ResendDelivers(lib: IpLib, rs: Routers, sent: map<string, Table>, t: Table, chosen: set<string>, wire: Wire,
    wire': Wire)
    requires Keyed(rs) && forall u :: u !in chosen ==> DeliveredAt(lib, rs, sent, wire, u)
    requires Resent(lib, rs, t, chosen, wire, wire')
    ensures Delivered(lib, rs, SentTo(sent, chosen, t), wire')
  {
    forall u ensures DeliveredAt(lib, rs, SentTo(sent, chosen, t), wire', u) {
      assert ResentAt(lib, rs, t, chosen, wire, wire', u);
      assert u !in chosen ==> DeliveredAt(lib, rs, sent, wire, u);
    }
  }

  /** A router agrees with a table exactly when it would announce the same on the table it was last sent from. */
  lemma AgreesExactly(lib: IpLib, rs: Routers, sent: map<string, Table>, t: Table, wire: Wire, u: string)
    requires Delivered(lib, rs, sent, wire) && u in rs && Announces(lib, rs[u])
    ensures u in sent
    ensures Agrees(lib, rs[u], t, wire) <==> AnnouncedSet(lib, rs[u], sent[u]) == AnnouncedSet(lib, rs[u], t)
  {
    assert DeliveredAt(lib, rs, sent, wire, u);
  }

  lemma ResentTwice(lib: IpLib, rs: Routers, t: Table, a: set<string>, b: set<string>, w0: Wire, w1: Wire, w2: Wire)
    requires Keyed(rs) && Resent(lib, rs, t, a, w0, w1) && Resent(lib, rs, t, b, w1, w2)
    ensures Resent(lib, rs, t, a + b, w0, w2)
  {
    forall u ensures ResentAt(lib, rs, t, a + b, w0, w2, u) {
      assert ResentAt(lib, rs, t, a, w0, w1, u) && ResentAt(lib, rs, t, b, w1, w2, u);
    }
  }

  /** One publish, read as a re-send of one router. */
  lemma {:induction false} PublishResends(lib: IpLib, rs: Routers, t: Table, r: Router, before: Wire, after: Wire)
    requires Keyed(rs) && r.uuid in rs && rs[r.uuid] == r
    requires forall s :: s != SubjectFor(r.uuid) ==>
      (s in after <==> s in before) && (s in after ==> after[s] == before[s])
    requires Announces(lib, r) ==> SubjectFor(r.uuid) in after && IsStateFor(lib, r, t, after[SubjectFor(r.uuid)])
    requires !Announces(lib, r) ==> after == before
    ensures Resent(lib, rs, t, {r.uuid}, before, after)
  {
    if Announces(lib, r) {
      StatePrefixes(lib, r, t, after[SubjectFor(r.uuid)]);
    }
    forall u ensures ResentAt(lib, rs, t, {r.uuid}, before, after, u) {
      if SubjectFor(u) == SubjectFor(r.uuid) { SubjectForInjective(u, r.uuid); }
    }
  }

  /** The uuids a walk over rows publishes when it filters on network. */
  ghost function Chosen(rows: seq<Router>, network: string): set<string> {
    set r | r in rows && Stitches(r, network) :: r.uuid
  }

  lemma ChosenStep(rows: seq<Router>, i: int, network: string)
    requires 0 <= i < |rows|
    ensures Stitches(rows[i], network) ==> Chosen(rows[..i + 1], network) == Chosen(rows[..i], network) + {rows[i].uuid}
    ensures !Stitches(rows[i], network) ==> Chosen(rows[..i + 1], network) == Chosen(rows[..i], network)
  {
    assert rows[..i + 1] == rows[..i] + [rows[i]];
    assert forall r :: r in rows[..i + 1] <==> r in rows[..i] || r == rows[i];
  }

  ghost predicate ListsAll(rs: Routers, rows: seq<Router>) {
    && (forall r :: r in rows ==> r.uuid in rs && rs[r.uuid] == r)
    && (forall u :: u in rs ==> rs[u] in rows)
  }

  /** An unfiltered List returns every stored row. */
  lemma UnfilteredList(rs: Routers, rows: seq<Router>)
    requires Keyed(rs) && Listing.IsListing(rs, InProject(""), ByCreation, rows)
    ensures ListsAll(rs, rows) && |rows| == |rs|
  {
    Listing.ListingMembers(rs, InProject(""), ByCreation, rows);
    var kept := Listing.Kept(rs, rs.Keys, InProject(""));
    assert |multiset(rows)| == |rows| && |multiset(kept)| == |kept|;
    KeyedSize(rs, rs.Keys, kept);
  }

  lemma {:induction false} KeyedSize(rs: Routers, uuids: set<string>, rows: set<Router>)
    requires Keyed(rs) && uuids <= rs.Keys && rows == set u | u in uuids :: rs[u]
    ensures |rows| == |uuids|
    decreases uuids
  {
    if uuids != {} {
      var u :| u in uuids;
      assert rows - {rs[u]} == set v | v in uuids - {u} :: rs[v];
      KeyedSize(rs, uuids - {u}, rows - {rs[u]});
      assert rs[u] in rows;
    }
  }

  lemma ChosenIsStitching(rs: Routers, rows: seq<Router>, network: string)
    requires Keyed(rs) && ListsAll(rs, rows)
    ensures Chosen(rows, network) == Stitching(rs, {network})
  {
    forall u | u in rs ensures StitchesAny(rs[u], {network}) <==> Stitches(rs[u], network) {}
    forall u ensures u in Chosen(rows, network) <==> u in Stitching(rs, {network}) {
      if u in Stitching(rs, {network}) { assert rs[u] in rows; }
    }
  }

  /** One publish inside a walk over the stored rows: the set of re-sent routers grows by r. */
  method Send(pub: NATS, r: Router, ghost rs: Routers, ghost sent: set<string>, ghost wire0: Wire)
    requires pub.Valid() && Keyed(rs) && r.uuid in rs && rs[r.uuid] == r
    requires Resent(pub.lib, rs, pub.LookupTable(), sent, wire0, pub.wire)
    modifies pub`wire
    ensures Resent(pub.lib, rs, pub.LookupTable(), sent + {r.uuid}, wire0, pub.wire)
  {
    ghost var t, before := pub.LookupTable(), pub.wire;
    pub.Publish(r);
    PublishResends(pub.lib, rs, t, r, before, pub.wire);
    ResentTwice(pub.lib, rs, t, sent, {r.uuid}, wire0, before, pub.wire);
  }

  // ---- The republish callback ----

  class Republisher {
    const store: MemoryStore
    const pub: NATS
    ghost var fired: seq<string>

    constructor (store: MemoryStore, pub: NATS)
      ensures this.store == store && this.pub == pub && fired == []
    {
      this.store, this.pub, this.fired := store, pub, [];
    }

    method OnChange(network: string)
      requires store.Valid() && pub.Valid()
      modifies this, pub`wire
      ensures fired == old(fired) + [network]
      ensures Resent(pub.lib, store.byUUID, pub.LookupTable(), Stitching(store.byUUID, {network}), old(pub.wire),
        pub.wire)
    {
      fired := fired + [network];
      var routers := store.List("");
      UnfilteredList(store.byUUID, routers);
      SendMatching(pub, routers, network, store.byUUID);
    }
  }

  /** The callback's walk: publish each listed router that stitches the network. */
  method SendMatching(pub: NATS, routers: seq<Router>, network: string, ghost rs: Routers)
    requires pub.Valid() && Keyed(rs) && ListsAll(rs, routers)
    modifies pub`wire
    ensures Resent(pub.lib, rs, pub.LookupTable(), Stitching(rs, {network}), old(pub.wire), pub.wire)
  {
    NothingResent(pub.lib, rs, pub.LookupTable(), pub.wire);
    for i := 0 to |routers|
      invariant Resent(pub.lib, rs, pub.LookupTable(), Chosen(routers[..i], network), old(pub.wire), pub.wire)
    {
      ChosenStep(routers, i, network);
      if Stitches(routers[i], network) {
        assert routers[i] in routers;
        Send(pub, routers[i], rs, Chosen(routers[..i], network), old(pub.wire));
      }
    }
    assert routers[..|routers|] == routers;
    ChosenIsStitching(rs, routers, network);
  }

  // ---- The event subscriber ----

  /**
   The event takes an active address off a network other than the one it names, and no other entry still holds
   that address there.
   */
  predicate MovesLastHolder(t: Table, ev: PlatformEvent) {
    && Upserts(ev) && ev.subject in t && IsActive(t[ev.subject])
    && t[ev.subject].networkUUID != "" && t[ev.subject].networkUUID != Meta(ev, "network_uuid")
    && !exists u :: u in t && u != ev.subject && IsActive(t[u])
         && t[u].networkUUID == t[ev.subject].networkUUID && t[u].address == t[ev.subject].address
  }

  /** The network an event leaves with a changed announce set and no notification. */
  function LeftBehind(t: Table, ev: PlatformEvent): set<string> {
    if MovesLastHolder(t, ev) then {t[ev.subject].networkUUID} else {}
  }

  /** The network handle fires onChange for; "" when it fires nothing. */
  function NotifiedNetwork(t: Table, ev: PlatformEvent): string {
    if Upserts(ev) then Meta(ev, "network_uuid")
    else if ev.kind == RELEASED && ev.subject in t then t[ev.subject].networkUUID
    else ""
  }

  /**
   handle notifies one network. That is enough if and only if the event moves no last holder: otherwise the
   network it left has a new announce set and nobody is told.
   */
  lemma NotifiedNetworkSuffices(t: Table, ev: PlatformEvent)
    requires WellKeyed(t) && (Upserts(ev) ==> ev.subject != "")
    ensures (forall n :: n != "" && n != NotifiedNetwork(t, ev) ==> AddrSet(t, n) == AddrSet(ApplyEvent(t, ev), n))
      <==> !MovesLastHolder(t, ev)
  {
    var t' := ApplyEvent(t, ev);
    if MovesLastHolder(t, ev) {
      var old_ := t[ev.subject];
      assert ev.subject in ActiveIn(t, old_.networkUUID) && old_.address in AddrSet(t, old_.networkUUID);
      assert old_.address !in AddrSet(t', old_.networkUUID);
    } else {
      forall n | n != "" && n != NotifiedNetwork(t, ev) ensures AddrSet(t, n) == AddrSet(t', n) {
        QuietNetworkUnchanged(t, ev, n);
      }
    }
  }

  lemma QuietNetworkUnchanged(t: Table, ev: PlatformEvent, n: string)
    requires WellKeyed(t) && n !in LeftBehind(t, ev) && n != "" && n != NotifiedNetwork(t, ev)
    ensures AddrSet(t, n) == AddrSet(ApplyEvent(t, ev), n)
  {
    var t' := ApplyEvent(t, ev);
    forall a | a in AddrSet(t, n) ensures a in AddrSet(t', n) {
      var u :| u in ActiveIn(t, n) && t[u].address == a;
      if u == ev.subject && Upserts(ev) {
        var v :| v in t && v != u && IsActive(t[v]) && t[v].networkUUID == n && t[v].address == a;
        assert v in ActiveIn(t', n);
      } else {
        assert u in ActiveIn(t', n);
      }
    }
    forall a | a in AddrSet(t', n) ensures a in AddrSet(t, n) {
      var u :| u in ActiveIn(t', n) && t'[u].address == a;
      assert u in ActiveIn(t, n);
    }
  }

  /** The index's only floating IP is re-mapped under another network: its old router keeps a stale route. */
  lemma MovedFipLeavesStaleRoute(lib: IpLib, r: Router, e: Entry, ev: PlatformEvent)
    requires Announces(lib, r) && |r.networks| == 1 && r.networks[0] == e.networkUUID != "" && r.prefixes == []
    requires IsActive(e) && SingleHostCIDR(lib, e.address) != ""
    requires ev.kind == MAPPED && ev.subject == e.uuid != ""
    requires Meta(ev, "network_uuid") != e.networkUUID && Meta(ev, "address") == e.address
    ensures
      var t := map[e.uuid := e];
      && !Stitches(r, NotifiedNetwork(t, ev))
      && AnnouncedSet(lib, r, t) == {SingleHostCIDR(lib, e.address)} && AnnouncedSet(lib, r, ApplyEvent(t, ev)) == {}
  {
    var e' := EntryOf(ev).(mapped := true);
    assert ApplyEvent(map[e.uuid := e], ev) == map[e.uuid := e'];
    SingleEntryRoutes(lib, r, e);
    SingleEntryRoutes(lib, r, e');
  }

  /** One active entry and a router on one network: the route is announced exactly when they meet. */
  lemma SingleEntryRoutes(lib: IpLib, r: Router, e: Entry)
    requires |r.networks| == 1 && r.networks[0] != "" && r.prefixes == []
    requires IsActive(e) && SingleHostCIDR(lib, e.address) != ""
    ensures AnnouncedSet(lib, r, map[e.uuid := e]) ==
      if e.networkUUID == r.networks[0] then {SingleHostCIDR(lib, e.address)} else {}
  {
    var n, t := r.networks[0], map[e.uuid := e];
    assert n in r.networks;
    if e.networkUUID == n {
      assert ActiveIn(t, n) == {e.uuid} && AddrSet(t, n) == {e.address};
    } else {
      assert ActiveIn(t, n) == {};
    }
  }

  class Subscriber {
    const idx: Index
    const onChange: Republisher?

    constructor (idx: Index, onChange: Republisher?)
      ensures this.idx == idx && this.onChange == onChange
    {
      this.idx, this.onChange := idx, onChange;
    }

    /** None stands for a payload that does not decode. */
    method Handle(payload: Option<PlatformEvent>)
      requires idx.Valid()
      requires payload.Some? && Upserts(payload.value) ==> payload.value.subject != ""
      requires onChange != null ==> onChange.store.Valid() && onChange.pub.fips == idx
      modifies idx, onChange, if onChange == null then {} else {onChange.pub}
      ensures idx.Valid()
      ensures idx.byUUID == if payload.None? then old(idx.byUUID) else ApplyEvent(old(idx.byUUID), payload.value)
      ensures payload.Some? ==> EventEffect(old(idx.byUUID), payload.value, idx.byUUID)
      ensures onChange != null ==>
        && onChange.pub.fips == old(onChange.pub.fips)
        && var n := if payload.None? then "" else NotifiedNetwork(old(idx.byUUID), payload.value);
           && onChange.fired == old(onChange.fired) + (if n == "" then [] else [n])
           && Resent(onChange.pub.lib, onChange.store.byUUID, idx.byUUID,
                     if n == "" then {} else Stitching(onChange.store.byUUID, {n}),
                     old(onChange.pub.wire), onChange.pub.wire)
    {
      if payload.None? {
        return;
      }
      var ev := payload.value;
      EventMeaning(idx.byUUID, ev);
      var entry := EntryOf(ev);
      var changedNetwork := "";
      if ev.kind == ALLOCATED {
        entry := entry.(mapped := false, targetKind := "", target := "");
        var _ := idx.Upsert(entry);
        changedNetwork := entry.networkUUID;
      } else if ev.kind == MAPPED {
        entry := entry.(mapped := true);
        var _ := idx.Upsert(entry);
        changedNetwork := entry.networkUUID;
      } else if ev.kind == UNMAPPED {
        entry := entry.(mapped := false, targetKind := "", target := "");
        var _ := idx.Upsert(entry);
        changedNetwork := entry.networkUUID;
      } else if ev.kind == RELEASED {
        var prev := idx.Delete(ev.subject);
        changedNetwork := prev.networkUUID;
      } else {
        return;
      }
      if changedNetwork != "" && onChange != null {
        onChange.OnChange(changedNetwork);
      }
    }
  }

  // ---- The poller ----

  /** The networks whose announce set differs between two tables. */
  ghost predicate IsChangeSet(before: Table, after: Table, changed: set<string>) {
    forall n :: n in changed <==> n != "" && AddrSet(before, n) != AddrSet(after, n)
  }

  class Poller {
    const idx: Index
    const onChange: Republisher

    constructor (idx: Index, onChange: Republisher)
      ensures this.idx == idx && this.onChange == onChange
    {
      this.idx, this.onChange := idx, onChange;
    }

    /**
     A failed fetch changes nothing. A successful one replaces the table, calls onChange exactly once for each
     network whose announce set changed, and re-sends exactly the routers stitching one of them.
     */
    method Tick(src: Result<seq<SourceFIP>, string>) returns (result: Result<(), string>, ghost changed: set<string>)
      requires idx.Valid() && onChange.store.Valid() && onChange.pub.fips == idx
      requires src.Ok? ==> DistinctItems(src.value)
      modifies idx, onChange, onChange.pub
      ensures idx.Valid() && onChange.pub.fips == idx
      ensures src.Err? ==>
        && result == Err(src.error) && changed == {}
        && idx.byUUID == old(idx.byUUID) && onChange.fired == old(onChange.fired) &&
          onChange.pub.wire == old(onChange.pub.wire)
      ensures src.Ok? ==> result.Ok? && idx.byUUID == TableOf(EntriesFrom(src.value))
      ensures src.Ok? ==> HoldsSnapshot(idx.byUUID, src.value)
      ensures IsChangeSet(old(idx.byUUID), idx.byUUID, changed)
      ensures old(onChange.fired) <= onChange.fired
      ensures multiset(onChange.fired[|old(onChange.fired)|..]) == multiset(changed)
      ensures Resent(onChange.pub.lib, onChange.store.byUUID, idx.byUUID,
                     Stitching(onChange.store.byUUID, changed), old(onChange.pub.wire), onChange.pub.wire)
    {
      changed := {};
      if src.Err? {
        return Err(src.error), {};
      }
      var items := src.value;
      var entries: seq<Entry> := [];
      for i := 0 to |items|
        invariant entries == EntriesFrom(items)[..i]
      {
        entries := entries + [EntryFrom(items[i])];
      }
      assert entries == EntriesFrom(items);
      SnapshotMeaning(items);
      ghost var before := idx.byUUID;
      var added, removed, churned := idx.ReplaceAll(entries);
      FipViews.ChangeSetsPartition(before, idx.byUUID, added, removed, churned);
      changed := added + removed + churned;
      Notify(added, removed, churned);
      result := Ok(());
    }

    /** The notification half of tick. */
    method Notify(added: set<string>, removed: set<string>, churned: set<string>)
      requires idx.Valid() && onChange.store.Valid() && onChange.pub.fips == idx
      modifies onChange, onChange.pub`wire
      ensures old(onChange.fired) <= onChange.fired
      ensures multiset(onChange.fired[|old(onChange.fired)|..]) == multiset(added + removed + churned)
      ensures Resent(onChange.pub.lib, onChange.store.byUUID, idx.byUUID,
                     Stitching(onChange.store.byUUID, added + removed + churned), old(onChange.pub.wire),
                       onChange.pub.wire)
    {
      ghost var fired0, wire0 := onChange.fired, onChange.pub.wire;
      assert Stitching(onChange.store.byUUID, {}) == {};
      NothingResent(onChange.pub.lib, onChange.store.byUUID, idx.byUUID, wire0);
      var seen: set<string> := {};
      if |added| + |removed| + |churned| > 0 {
        seen := FireAll(added, seen, fired0, wire0);
        seen := FireAll(removed, seen, fired0, wire0);
        seen := FireAll(churned, seen, fired0, wire0);
      }
      assert seen == added + removed + churned;
    }

    /** One of tick's three walks: notify each network of the set that was not notified before. */
    method FireAll(networks: set<string>, seen: set<string>, ghost fired0: seq<string>, ghost wire0: Wire)
      returns (seen': set<string>)
      requires idx.Valid() && onChange.store.Valid() && onChange.pub.fips == idx
      requires fired0 <= onChange.fired && multiset(onChange.fired[|fired0|..]) == multiset(seen)
      requires Resent(onChange.pub.lib, onChange.store.byUUID, idx.byUUID,
                      Stitching(onChange.store.byUUID, seen), wire0, onChange.pub.wire)
      modifies onChange, onChange.pub`wire
      ensures seen' == seen + networks
      ensures fired0 <= onChange.fired && multiset(onChange.fired[|fired0|..]) == multiset(seen')
      ensures Resent(onChange.pub.lib, onChange.store.byUUID, idx.byUUID,
                     Stitching(onChange.store.byUUID, seen'), wire0, onChange.pub.wire)
    {
      seen' := seen;
      var left := networks;
      ghost var rs, t, lib := onChange.store.byUUID, idx.byUUID, onChange.pub.lib;
      while left != {}
        invariant left <= networks && seen' == seen + (networks - left)
        invariant fired0 <= onChange.fired && multiset(onChange.fired[|fired0|..]) == multiset(seen')
        invariant Resent(lib, rs, t, Stitching(rs, seen'), wire0, onChange.pub.wire)
        decreases left
      {
        var n :| n in left;
        left := left - {n};
        if n !in seen' {
          ghost var wire1, fired1 := onChange.pub.wire, onChange.fired;
          onChange.OnChange(n);
          assert onChange.fired[|fired0|..] == fired1[|fired0|..] + [n];
          ResentTwice(lib, rs, t, Stitching(rs, seen'), Stitching(rs, {n}), wire0, wire1, onChange.pub.wire);
          StitchingUnion(rs, seen', n);
          seen' := seen' + {n};
        }
      }
    }
  }

  lemma StitchingUnion(rs: Routers, networks: set<string>, n: string)
    ensures Stitching(rs, networks + {n}) == Stitching(rs, networks) + Stitching(rs, {n})
  {
    forall u | u in rs ensures StitchesAny(rs[u], networks + {n}) <==>
      StitchesAny(rs[u], networks) || StitchesAny(rs[u], {n}) {}
  }

  // ---- The router handlers ----

  class Server {
    const store: MemoryStore
    const pub: NATS

    constructor (store: MemoryStore, pub: NATS)
      ensures this.store == store && this.pub == pub
    {
      this.store, this.pub := store, pub;
    }

    /** Store first, then publish what was stored. */
    method CreateRouter(r: Router) returns (result: Result<Router, StoreError>)
      requires store.Valid() && pub.Valid() && r.uuid !in store.byUUID
      modifies store, pub`wire
      ensures store.Valid() && (result.Err? <==> KeyTaken(old(store.byUUID), r))
      ensures result.Err? ==> store.byUUID == old(store.byUUID) && pub.wire == old(pub.wire)
      ensures result.Ok? ==>
        && store.byUUID == old(store.byUUID)[r.uuid := r]
        && Resent(pub.lib, store.byUUID, pub.LookupTable(), {r.uuid}, old(pub.wire), pub.wire)
    {
      result := store.Create(r);
      if result.Err? {
        return;
      }
      pub.Publish(result.value);
      PublishResends(pub.lib, store.byUUID, pub.LookupTable(), r, old(pub.wire), pub.wire);
    }

    /** Remove from the store first, then clear the subject. */
    method DeleteRouter(uuid: string) returns (result: Result<(), StoreError>)
      requires store.Valid()
      modifies store, pub`wire
      ensures store.Valid() && store.byUUID == old(store.byUUID) - {uuid}
      ensures result == if uuid in old(store.byUUID) then Ok(()) else Err(NotFound)
      ensures pub.wire == if result.Ok? then old(pub.wire)[SubjectFor(uuid) := EMPTY_STATE] else old(pub.wire)
    {
      result := store.Delete(uuid);
      if result.Err? {
        return;
      }
      pub.Withdraw(uuid);
    }

    /** Start-up sweep: every stored router is re-sent; the count is the number of rows. */
    method ResyncRouters() returns (count: nat)
      requires store.Valid() && pub.Valid()
      modifies pub`wire
      ensures Resent(pub.lib, store.byUUID, pub.LookupTable(), store.byUUID.Keys, old(pub.wire), pub.wire)
      ensures count == |store.byUUID|
    {
      var rows := store.List("");
      UnfilteredList(store.byUUID, rows);
      SendAll(pub, store.byUUID, rows);
      return |rows|;
    }
  }

  method SendAll(pub: NATS, ghost rs: Routers, rows: seq<Router>)
    requires pub.Valid() && Keyed(rs) && ListsAll(rs, rows)
    modifies pub`wire
    ensures Resent(pub.lib, rs, pub.LookupTable(), rs.Keys, old(pub.wire), pub.wire)
  {
    ghost var t := pub.LookupTable();
    NothingResent(pub.lib, rs, t, pub.wire);
    for i := 0 to |rows|
      invariant pub.Valid() && pub.LookupTable() == t
      invariant Resent(pub.lib, rs, t, UUIDs(rows[..i]), old(pub.wire), pub.wire)
    {
      assert rows[i] in rows;
      UUIDsStep(rows, i);
      Send(pub, rows[i], rs, UUIDs(rows[..i]), old(pub.wire));
    }
    assert rows[..|rows|] == rows;
    UUIDsAll(rs, rows);
  }

  ghost function UUIDs(rows: seq<Router>): set<string> {
    set r | r in rows :: r.uuid
  }

  lemma UUIDsStep(rows: seq<Router>, i: int)
    requires 0 <= i < |rows|
    ensures UUIDs(rows[..i + 1]) == UUIDs(rows[..i]) + {rows[i].uuid}
  {
    assert rows[..i + 1] == rows[..i] + [rows[i]];
  }

  lemma UUIDsAll(rs: Routers, rows: seq<Router>)
    requires Keyed(rs) && ListsAll(rs, rows)
    ensures UUIDs(rows) == rs.Keys
  {
    assert forall u :: u in rs ==> rs[u] in rows && rs[u].uuid == u;
  }

  // ---- The whole process ----

  datatype Step =
    | CreateRouter(r: Router)
    | DeleteRouter(uuid: string)
    | FipEvent(payload: Option<PlatformEvent>)
    | PollerTick(src: Result<seq<SourceFIP>, string>)
    | StatusReport(router: string, status: string, peerState: string)

  /** What the environment guarantees: fresh router uuids, and uuids on floating IPs, distinct in a snapshot. */
  predicate Admissible(s: Step, rs: Routers, t: Table) {
    match s
    case CreateRouter(r) => r.uuid !in rs
    case DeleteRouter(_) => true
    case FipEvent(payload) => payload.Some? && Upserts(payload.value) ==> payload.value.subject != ""
    case PollerTick(src) => src.Ok? ==> DistinctItems(src.value)
    case StatusReport(_, _, _) => true
  }

  /** The stored routers after a step. */
  ghost function RoutersAfter(rs: Routers, s: Step): Routers {
    match s
    case CreateRouter(r) => if KeyTaken(rs, r) then rs else rs[r.uuid := r]
    case DeleteRouter(uuid) => rs - {uuid}
    case StatusReport(uuid, status, peerState) =>
      if uuid in rs then rs[uuid := rs[uuid].(status := status, peerState := peerState)] else rs
    case _ => rs
  }

  /** The floating-IP table after a step. */
  function TableAfter(t: Table, s: Step): Table {
    match s
    case FipEvent(Some(ev)) => ApplyEvent(t, ev)
    case PollerTick(Ok(items)) => TableOf(EntriesFrom(items))
    case _ => t
  }

  /** The stale networks after a step: an event may leave one behind, and a notification clears its network. */
  ghost function StaleAfter(t: Table, stale: set<string>, s: Step): set<string> {
    match s
    case FipEvent(Some(ev)) => stale + LeftBehind(t, ev) - {NotifiedNetwork(t, ev)}
    case PollerTick(Ok(items)) => set n | n in stale && AddrSet(t, n) == AddrSet(TableOf(EntriesFrom(items)), n)
    case _ => stale
  }

  /** The routers a step re-sends. */
  ghost function Reached(rs: Routers, t: Table, s: Step): set<string> {
    match s
    case CreateRouter(r) => if KeyTaken(rs, r) then {} else {r.uuid}
    case FipEvent(Some(ev)) => if NotifiedNetwork(t, ev) == "" then {} else Stitching(rs, {NotifiedNetwork(t, ev)})
    case PollerTick(Ok(items)) => set u | u in rs && OnChangedNetwork(rs[u], t, TableOf(EntriesFrom(items)))
    case _ => {}
  }

  ghost predicate OnChangedNetwork(r: Router, before: Table, after: Table) {
    exists n :: n != "" && Stitches(r, n) && AddrSet(before, n) != AddrSet(after, n)
  }

  lemma ReachedByTick(rs: Routers, before: Table, after: Table, changed: set<string>)
    requires IsChangeSet(before, after, changed)
    ensures Stitching(rs, changed) == set u | u in rs && OnChangedNetwork(rs[u], before, after)
  {
    forall u | u in rs ensures StitchesAny(rs[u], changed) <==> OnChangedNetwork(rs[u], before, after) {
      if n :| n != "" && Stitches(rs[u], n) && AddrSet(before, n) != AddrSet(after, n) { assert n in changed; }
    }
  }

  /** sent: for each router, the table its last message was made from. */
  datatype Expected = Expected(routers: Routers, table: Table, stale: set<string>, sent: map<string, Table>)

  /** The state after a sequence of steps; steps the environment rules out are skipped. */
  ghost function StateAfter(e: Expected, steps: seq<Step>): Expected {
    if steps == [] then e
    else
      var m, s := StateAfter(e, steps[..|steps| - 1]), steps[|steps| - 1];
      if Admissible(s, m.routers, m.table) then
        Expected(RoutersAfter(m.routers, s), TableAfter(m.table, s), StaleAfter(m.table, m.stale, s),
                 SentTo(m.sent, Reached(m.routers, m.table, s), TableAfter(m.table, s)))
      else m
  }

  /** No event of the run moves an address's last active holder off another network. */
  ghost predicate NoHolderMoves(e: Expected, steps: seq<Step>) {
    steps == [] ||
    var m, s := StateAfter(e, steps[..|steps| - 1]), steps[|steps| - 1];
    NoHolderMoves(e, steps[..|steps| - 1]) &&
      (s.FipEvent? && s.payload.Some? ==> !MovesLastHolder(m.table, s.payload.value))
  }

  /** Then nothing ever goes stale. */
  lemma {:induction false} NoMovesNoStale(e: Expected, steps: seq<Step>)
    requires e.stale == {} && NoHolderMoves(e, steps)
    ensures StateAfter(e, steps).stale == {}
  {
    if steps != [] {
      NoMovesNoStale(e, steps[..|steps| - 1]);
    }
  }

  /** One running process, after start-up. */
  class Process {
    const store: MemoryStore
    const pub: NATS
    const idx: Index
    const onChange: Republisher
    const server: Server
    const subscriber: Subscriber
    const poller: Poller

    ghost predicate Valid()
      reads this, store, pub, idx, onChange
    {
      && store.Valid() && idx.Valid() && pub.fips == idx
      && onChange.store == store && onChange.pub == pub
      && server.store == store && server.pub == pub
      && subscriber.idx == idx && subscriber.onChange == onChange
      && poller.idx == idx && poller.onChange == onChange
    }

    ghost predicate SyncedBut(stale: set<string>)
      reads this, store, pub, idx, onChange
    {
      Valid() && InSyncBut(pub.lib, store.byUUID, idx.byUUID, pub.wire, stale)
    }

    /** What was sent, and from which tables, is what the bookkeeping says. */
    ghost predicate Tracks(stale: set<string>, sent: map<string, Table>)
      reads this, store, pub, idx, onChange
    {
      SyncedBut(stale) && "" !in stale && Delivered(pub.lib, store.byUUID, sent, pub.wire)
    }

    /**
     Start-up in the daemon's order: resync the stored routers before any lookup is wired, then wire an empty
     index, then seed it. The process starts in sync whether or not the seed fetch succeeds.
     */
    constructor (lib: IpLib, store: MemoryStore, seed: Result<seq<SourceFIP>, string>)
      requires store.Valid() && (seed.Ok? ==> DistinctItems(seed.value))
      ensures SyncedBut({}) && this.store == store && store.byUUID == old(store.byUUID)
      ensures Tracks({}, StartSent(store.byUUID, seed))
      ensures fresh(pub) && fresh(idx) && fresh(onChange)
      ensures idx.byUUID == if seed.Ok? then TableOf(EntriesFrom(seed.value)) else map[]
      ensures seed.Ok? ==> HoldsSnapshot(idx.byUUID, seed.value)
    {
      var pub, server := Resynced(lib, store);
      var idx := new Index();
      pub.SetFIPLookup(idx);
      var onChange := new Republisher(store, pub);
      var poller := new Poller(idx, onChange);
      Seeded(poller, seed);
      if seed.Ok? { SnapshotMeaning(seed.value); }
      var subscriber := new Subscriber(idx, onChange);
      this.store, this.pub, this.idx, this.onChange := store, pub, idx, onChange;
      this.server, this.subscriber, this.poller := server, subscriber, poller;
    }

    static method Seeded(poller: Poller, seed: Result<seq<SourceFIP>, string>)
      requires poller.idx.Valid() && poller.onChange.store.Valid() && poller.onChange.pub.fips == poller.idx
      requires poller.idx.byUUID == map[] && (seed.Ok? ==> DistinctItems(seed.value))
      requires InSync(poller.onChange.pub.lib, poller.onChange.store.byUUID, map[], poller.onChange.pub.wire)
      requires
        var rs := poller.onChange.store.byUUID;
        Delivered(poller.onChange.pub.lib, rs, FirstSent(rs), poller.onChange.pub.wire)
      modifies poller.idx, poller.onChange, poller.onChange.pub
      ensures poller.idx.Valid() && poller.onChange.pub.fips == poller.idx
      ensures poller.idx.byUUID == TableAfter(map[], PollerTick(seed))
      ensures InSync(poller.onChange.pub.lib, poller.onChange.store.byUUID, poller.idx.byUUID, poller.onChange.pub.wire)
      ensures
        var rs := poller.onChange.store.byUUID;
        Delivered(poller.onChange.pub.lib, rs, StartSent(rs, seed), poller.onChange.pub.wire)
    {
      ghost var lib, rs, wire0 := poller.onChange.pub.lib, poller.onChange.store.byUUID, poller.onChange.pub.wire;
      var _, changed := poller.Tick(seed);
      ghost var t := poller.idx.byUUID;
      ResendRestoresSync(lib, rs, map[], t, changed, {}, {}, wire0, poller.onChange.pub.wire);
      assert {} + {} - changed == {};
      ResendDelivers(lib, rs, FirstSent(rs), t, Stitching(rs, changed), wire0, poller.onChange.pub.wire);
      SeedReaches(rs, seed, changed);
    }

    static method Resynced(lib: IpLib, store: MemoryStore) returns (pub: NATS, server: Server)
      requires store.Valid()
      ensures fresh(pub) && pub.lib == lib && pub.fips == null
      ensures server.store == store && server.pub == pub
      ensures InSync(lib, store.byUUID, map[], pub.wire)
      ensures Delivered(lib, store.byUUID, FirstSent(store.byUUID), pub.wire)
    {
      pub := new NATS(lib);
      server := new Server(store, pub);
      var _ := server.ResyncRouters();
      ResyncSyncs(lib, store.byUUID, map[], map[], pub.wire);
      ResyncDelivers(lib, store.byUUID, pub.wire);
    }

    method OnCreate(r: Router, ghost stale: set<string>, ghost sent: map<string, Table>)
      requires Tracks(stale, sent) && r.uuid !in store.byUUID
      modifies store, pub
      ensures Tracks(stale, SentTo(sent, Reached(old(store.byUUID), idx.byUUID, CreateRouter(r)), idx.byUUID))
      ensures store.byUUID == RoutersAfter(old(store.byUUID), CreateRouter(r))
    {
      ghost var rs, wire := store.byUUID, pub.wire;
      var result := server.CreateRouter(r);
      if result.Ok? {
        CreateKeepsSync(pub.lib, rs, idx.byUUID, r, wire, pub.wire, stale);
        CreateDelivers(pub.lib, rs, sent, idx.byUUID, r, wire, pub.wire);
      } else {
        assert SentTo(sent, {}, idx.byUUID) == sent;
      }
    }

    method OnDelete(uuid: string, ghost stale: set<string>, ghost sent: map<string, Table>)
      requires Tracks(stale, sent)
      modifies store, pub
      ensures Tracks(stale, sent) && store.byUUID == RoutersAfter(old(store.byUUID), DeleteRouter(uuid))
    {
      ghost var rs, wire := store.byUUID, pub.wire;
      var _ := server.DeleteRouter(uuid);
      DeleteKeepsSync(pub.lib, rs, idx.byUUID, uuid, wire, stale);
      DeleteDelivers(pub.lib, rs, sent, uuid, wire);
      assert uuid !in rs ==> rs - {uuid} == rs;
    }

    method OnEvent(payload: Option<PlatformEvent>, ghost stale: set<string>, ghost sent: map<string, Table>)
      requires Tracks(stale, sent) && (payload.Some? && Upserts(payload.value) ==> payload.value.subject != "")
      modifies pub, idx, onChange
      ensures
        var t, s := old(idx.byUUID), FipEvent(payload);
        idx.byUUID == TableAfter(t, s)
        && Tracks(StaleAfter(t, stale, s), SentTo(sent, Reached(store.byUUID, t, s), idx.byUUID))
    {
      ghost var t, wire := idx.byUUID, pub.wire;
      subscriber.Handle(payload);
      EventKeepsSync(pub.lib, store.byUUID, t, payload, wire, pub.wire, stale);
      ResendDelivers(pub.lib, store.byUUID, sent, idx.byUUID, Reached(store.byUUID, t, FipEvent(payload)), wire,
        pub.wire);
    }

    method OnTick(src: Result<seq<SourceFIP>, string>, ghost stale: set<string>, ghost sent: map<string, Table>)
      requires Tracks(stale, sent) && (src.Ok? ==> DistinctItems(src.value))
      modifies pub, idx, onChange
      ensures
        var t, s := old(idx.byUUID), PollerTick(src);
        idx.byUUID == TableAfter(t, s)
        && Tracks(StaleAfter(t, stale, s), SentTo(sent, Reached(store.byUUID, t, s), idx.byUUID))
    {
      ghost var t, wire := idx.byUUID, pub.wire;
      var _, changed := poller.Tick(src);
      ResendRestoresSync(pub.lib, store.byUUID, t, idx.byUUID, changed, {}, stale, wire, pub.wire);
      assert stale + {} - changed == StaleAfter(t, stale, PollerTick(src));
      ReachedByTick(store.byUUID, t, idx.byUUID, changed);
      TickReaches(store.byUUID, t, src, changed);
      ResendDelivers(pub.lib, store.byUUID, sent, idx.byUUID, Stitching(store.byUUID, changed), wire, pub.wire);
    }

    method OnStatus(uuid: string, status: string, peerState: string, ghost stale: set<string>,
      ghost sent: map<string, Table>)
      requires Tracks(stale, sent)
      modifies store
      ensures Tracks(stale, sent)
      ensures store.byUUID == RoutersAfter(old(store.byUUID), StatusReport(uuid, status, peerState))
    {
      ghost var rs := store.byUUID;
      var _ := store.UpdateStatus(uuid, status, peerState);
      StatusKeepsSync(pub.lib, rs, store.byUUID, idx.byUUID, pub.wire, stale);
      StatusDelivers(pub.lib, rs, store.byUUID, sent, pub.wire);
    }

    /**
     Every step has its effect on routers and table, re-sends exactly the routers it reaches, and leaves the wire in
     agreement with the table for every router that stitches no stale network.
     */
    method Perform(s: Step, ghost stale: set<string>, ghost sent: map<string, Table>)
      requires Tracks(stale, sent) && Admissible(s, store.byUUID, idx.byUUID)
      modifies store, pub, idx, onChange
      ensures store.byUUID == RoutersAfter(old(store.byUUID), s) && idx.byUUID == TableAfter(old(idx.byUUID), s)
      ensures Tracks(StaleAfter(old(idx.byUUID), stale, s),
                     SentTo(sent, Reached(old(store.byUUID), old(idx.byUUID), s), idx.byUUID))
    {
      assert SentTo(sent, {}, idx.byUUID) == sent;
      match s
      case CreateRouter(r) => OnCreate(r, stale, sent);
      case DeleteRouter(uuid) => OnDelete(uuid, stale, sent);
      case FipEvent(payload) => OnEvent(payload, stale, sent);
      case PollerTick(src) => OnTick(src, stale, sent);
      case StatusReport(uuid, status, peerState) => OnStatus(uuid, status, peerState, stale, sent);
    }

    ghost function State(stale: set<string>, sent: map<string, Table>): Expected
      reads this, store, idx
    {
      Expected(store.byUUID, idx.byUUID, stale, sent)
    }
  }

  /** After the resync every router was sent from the empty table. */
  ghost function FirstSent(rs: Routers): map<string, Table> {
    map u | u in rs :: map[]
  }

  /** After the seed, the routers it reaches were sent from the seeded table. */
  ghost function StartSent(rs: Routers, seed: Result<seq<SourceFIP>, string>): map<string, Table> {
    SentTo(FirstSent(rs), Reached(rs, map[], PollerTick(seed)), TableAfter(map[], PollerTick(seed)))
  }

  lemma TickReaches(rs: Routers, t: Table, src: Result<seq<SourceFIP>, string>, changed: set<string>)
    requires IsChangeSet(t, TableAfter(t, PollerTick(src)), changed)
    ensures Stitching(rs, changed) == Reached(rs, t, PollerTick(src))
  {
    ReachedByTick(rs, t, TableAfter(t, PollerTick(src)), changed);
    if src.Err? { assert changed == {}; }
  }

  lemma SeedReaches(rs: Routers, seed: Result<seq<SourceFIP>, string>, changed: set<string>)
    requires IsChangeSet(map[], TableAfter(map[], PollerTick(seed)), changed)
    ensures SentTo(FirstSent(rs), Stitching(rs, changed), TableAfter(map[], PollerTick(seed))) == StartSent(rs, seed)
  {
    TickReaches(rs, map[], seed, changed);
  }

  /** A router's message agrees with the table exactly when it would announce the same from the one it was made of. */
  ghost predicate AgreementExact(lib: IpLib, e: Expected, wire: Wire, u: string)
    requires u in e.routers && Announces(lib, e.routers[u])
  {
    && u in e.sent
    && (Agrees(lib, e.routers[u], e.table, wire) <==>
        AnnouncedSet(lib, e.routers[u], e.sent[u]) == AnnouncedSet(lib, e.routers[u], e.table))
  }

  /**
   Every run: whatever sequence of router, event, poll and status steps follows start-up, routers and table hold
   what the steps say, and the wire agrees with them for every router stitching no network that an event left behind
   and nothing has notified since. If no event moves a last holder, that is every router. Router by router, it agrees
   if and only if its announce set is what it was on the table it was last sent from.
   */
  method Run(p: Process, steps: seq<Step>, ghost sent: map<string, Table>) returns (ghost end: Expected)
    requires p.Tracks({}, sent)
    modifies p.store, p.pub, p.idx, p.onChange
    ensures end == StateAfter(old(p.State({}, sent)), steps)
    ensures p.store.byUUID == end.routers && p.idx.byUUID == end.table && p.Tracks(end.stale, end.sent)
    ensures NoHolderMoves(old(p.State({}, sent)), steps) ==> p.SyncedBut({})
    ensures NoHolderMoves(old(p.State({}, sent)), steps) && Lawful(p.pub.lib) ==>
      forall u :: u in end.routers ==> ToldRight(p.pub.lib, end.routers[u], end.table, p.pub.wire)
    ensures forall u :: u in end.routers && Announces(p.pub.lib, end.routers[u]) ==>
      AgreementExact(p.pub.lib, end, p.pub.wire, u)
  {
    ghost var start := p.State({}, sent);
    end := start;
    for i := 0 to |steps|
      invariant end == StateAfter(start, steps[..i]) && end == p.State(end.stale, end.sent)
      invariant p.Tracks(end.stale, end.sent)
    {
      assert steps[..i + 1][..i] == steps[..i];
      if Admissible(steps[i], p.store.byUUID, p.idx.byUUID) {
        p.Perform(steps[i], end.stale, end.sent);
        end := Expected(p.store.byUUID, p.idx.byUUID, StaleAfter(end.table, end.stale, steps[i]),
                        SentTo(end.sent, Reached(end.routers, end.table, steps[i]), p.idx.byUUID));
      }
    }
    assert steps[..|steps|] == steps;
    if NoHolderMoves(start, steps) {
      NoMovesNoStale(start, steps);
      if Lawful(p.pub.lib) { SyncMeaning(p.pub.lib, end.routers, end.table, p.pub.wire); }
    }
    forall u | u in end.routers && Announces(p.pub.lib, end.routers[u])
      ensures AgreementExact(p.pub.lib, end, p.pub.wire, u)
    {
      AgreesExactly(p.pub.lib, end.routers, end.sent, end.table, p.pub.wire, u);
    }
  }

  /** The subject of uuid carries what r should be told on table t; silence is as good as an empty message. */
  ghost predicate ToldRight(lib: IpLib, r: Router, t: Table, wire: Wire) {
    var subject := "weft.router." + r.uuid + ".config";
    if subject in wire then Tells(lib, r, t, wire[subject])
    else !(r.kind == "egress" && r.backend == "gobgp" && HasPeer(lib, r))
  }

  /** Agreement in terms of the rows: every stored router's subject says its own prefixes and its host routes. */
  lemma SyncMeaning(lib: IpLib, rs: Routers, t: Table, wire: Wire)
    requires Lawful(lib) && Keyed(rs) && InSync(lib, rs, t, wire)
    ensures forall u :: u in rs ==> ToldRight(lib, rs[u], t, wire)
  {
    forall u | u in rs ensures ToldRight(lib, rs[u], t, wire) {
      var r := rs[u];
      assert SyncedAt(lib, rs, t, wire, {}, u);
      forall p ensures ParseExternalPeer(lib, r.external) == Some(p) <==> Shape(lib, TrimSpace(r.external), p) {
        ParseExternalPeerMeaning(lib, r.external, p);
      }
      if Announces(lib, r) { AgreesMeaning(lib, r, t, wire); }
    }
  }

  lemma AgreesMeaning(lib: IpLib, r: Router, t: Table, wire: Wire)
    requires Lawful(lib) && Announces(lib, r) && Agrees(lib, r, t, wire)
    ensures SaysAll(lib, r, t, wire[SubjectFor(r.uuid)])
  {
    var state := wire[SubjectFor(r.uuid)];
    ParseExternalPeerMeaning(lib, r.external, ParseExternalPeer(lib, r.external).value);
    forall x ensures Mentions(state, x) <==> x in r.prefixes || IsFipRoute(lib, r, t, x) {
      FipRouteMeaning(lib, r, t, x);
      MentionsSet(state, x);
    }
  }

  // ---- The incremental path against the full rebuild ----

  /** What is served after a history: an address is there exactly when the last event of some floating IP maps it so. */
  lemma LiveFromHistory(evs: seq<PlatformEvent>, networks: seq<string>, live: seq<string>)
    requires IsLookup(ApplyEvents(map[], evs), NetSet(networks), live)
    ensures forall a :: a in live <==> exists u, n :: n in networks && n != "" && a != "" && LastMaps(evs, u, n, a)
  {
    var t := ApplyEvents(map[], evs);
    LookupAddresses(t, NetSet(networks), live);
    forall a ensures a in live <==> exists u, n :: n in networks && n != "" && a != "" && LastMaps(evs, u, n, a) {
      if a in live {
        var n :| n in NetSet(networks) && n != "" && a in AddrSet(t, n);
        AddrSetMeaning(t, n);
        var u :| ActiveAt(t, u, n, a);
        HistoryMeaning(map[], evs, u, n, a);
      }
      if u, n :| n in networks && n != "" && a != "" && LastMaps(evs, u, n, a) {
        HistoryMeaning(map[], evs, u, n, a);
        AddrSetMeaning(t, n);
        assert n in NetSet(networks) && a in AddrSet(t, n);
      }
    }
  }

  /**
   One index follows the events one at a time; another is filled by ReplaceAll from the final table. They serve
   the same grouping, the same gauge and the same lookups.
   */
  method IncrementalMatchesRebuild(evs: seq<PlatformEvent>, networks: seq<string>)
    returns (live: seq<string>, rebuilt: seq<string>, gauges: seq<nat>, gauges': seq<nat>)
    requires forall ev :: ev in evs && Upserts(ev) ==> ev.subject != ""
    ensures live == rebuilt && IsLookup(ApplyEvents(map[], evs), NetSet(networks), live)
    ensures forall a :: a in live <==> exists u, n :: n in networks && n != "" && a != "" && LastMaps(evs, u, n, a)
    ensures gauges == gauges' && |gauges| == |networks|
    ensures forall i :: 0 <= i < |networks| && networks[i] != "" ==>
      gauges[i] == |ActiveIn(ApplyEvents(map[], evs), networks[i])|
  {
    var a := new Index();
    var s := new Subscriber(a, null);
    for i := 0 to |evs|
      invariant a.Valid() && a.byUUID == ApplyEvents(map[], evs[..i])
    {
      assert evs[..i + 1][..i] == evs[..i] && evs[i] in evs;
      s.Handle(Some(evs[i]));
    }
    assert evs[..|evs|] == evs;
    var b := new Index();
    var all := a.All();
    var _, _, _ := b.ReplaceAll(all);
    FipViews.SameTableSameViews(a.byUUID, a.netUUID, b.netUUID, a.gauge, b.gauge);
    live := a.ActiveFIPsInNetworks(networks);
    rebuilt := b.ActiveFIPsInNetworks(networks);
    LiveFromHistory(evs, networks, live);
    gauges := seq(|networks|, i requires 0 <= i < |networks| reads a => GaugeValue(a.gauge, networks[i]));
    gauges' := seq(|networks|, i requires 0 <= i < |networks| reads b => GaugeValue(b.gauge, networks[i]));
  }

  /** Re-sending every router on a quiet wire brings it in sync. */
  lemma ResyncSyncs(lib: IpLib, rs: Routers, t: Table, before: Wire, after: Wire)
    requires before == map[] && Resent(lib, rs, t, rs.Keys, before, after)
    ensures InSync(lib, rs, t, after)
  {
    forall u ensures SyncedAt(lib, rs, t, after, {}, u) {
      assert ResentAt(lib, rs, t, rs.Keys, before, after, u);
    }
  }

  lemma ResyncDelivers(lib: IpLib, rs: Routers, after: Wire)
    requires Keyed(rs) && Resent(lib, rs, map[], rs.Keys, map[], after)
    ensures Delivered(lib, rs, FirstSent(rs), after)
  {
    ResendDelivers(lib, rs, map[], map[], rs.Keys, map[], after);
    assert SentTo(map[], rs.Keys, map[]) == FirstSent(rs);
  }

  lemma EventKeepsSync(lib: IpLib, rs: Routers, t: Table, payload: Option<PlatformEvent>, before: Wire, after: Wire,
                       stale: set<string>)
    requires Keyed(rs) && WellKeyed(t) && InSyncBut(lib, rs, t, before, stale) && "" !in stale
    requires
      var n := if payload.None? then "" else NotifiedNetwork(t, payload.value);
      var t' := if payload.None? then t else ApplyEvent(t, payload.value);
      Resent(lib, rs, t', if n == "" then {} else Stitching(rs, {n}), before, after)
    ensures InSyncBut(lib, rs, TableAfter(t, FipEvent(payload)), after, StaleAfter(t, stale, FipEvent(payload)))
  {
    var n := if payload.None? then "" else NotifiedNetwork(t, payload.value);
    var t' := if payload.None? then t else ApplyEvent(t, payload.value);
    var missed := if payload.None? then {} else LeftBehind(t, payload.value);
    forall m | m != "" && m != n && m !in missed ensures AddrSet(t, m) == AddrSet(t', m) {
      if payload.Some? { QuietNetworkUnchanged(t, payload.value, m); }
    }
    var sent: set<string> := if n == "" then {} else {n};
    assert Stitching(rs, {}) == {};
    ResendRestoresSync(lib, rs, t, t', sent, missed, stale, before, after);
    assert stale + missed - sent == stale + missed - {n};
  }

  lemma CreateKeepsSync(lib: IpLib, rs: Routers, t: Table, r: Router, before: Wire, after: Wire, stale: set<string>)
    requires Keyed(rs) && InSyncBut(lib, rs, t, before, stale) && r.uuid !in rs
    requires Resent(lib, rs[r.uuid := r], t, {r.uuid}, before, after)
    ensures InSyncBut(lib, rs[r.uuid := r], t, after, stale)
  {
    var rs' := rs[r.uuid := r];
    forall u ensures SyncedAt(lib, rs', t, after, stale, u) {
      assert SyncedAt(lib, rs, t, before, stale, u);
      assert ResentAt(lib, rs', t, {r.uuid}, before, after, u);
      if u == r.uuid {
        assert Silent(u, before);
      } else if u in rs && Announces(lib, rs[u]) {
        assert rs'[u] == rs[u] && Untouched(u, before, after);
      }
    }
  }

  lemma DeleteKeepsSync(lib: IpLib, rs: Routers, t: Table, uuid: string, before: Wire, stale: set<string>)
    requires Keyed(rs) && InSyncBut(lib, rs, t, before, stale)
    ensures InSyncBut(lib, rs - {uuid}, t, before[SubjectFor(uuid) := EMPTY_STATE], stale)
  {
    var rs', after := rs - {uuid}, before[SubjectFor(uuid) := EMPTY_STATE];
    forall u ensures SyncedAt(lib, rs', t, after, stale, u) {
      assert SyncedAt(lib, rs, t, before, stale, u);
      if u != uuid {
        if SubjectFor(u) == SubjectFor(uuid) { SubjectForInjective(u, uuid); }
        assert Untouched(u, before, after);
      }
    }
  }

  /** Live-state updates change nothing a router announces. */
  lemma StatusKeepsSync(lib: IpLib, rs: Routers, rs': Routers, t: Table, wire: Wire, stale: set<string>)
    requires Keyed(rs) && Keyed(rs') && InSyncBut(lib, rs, t, wire, stale) && rs'.Keys == rs.Keys
    requires forall u :: u in rs ==> rs'[u] == rs[u].(status := rs'[u].status, peerState := rs'[u].peerState)
    ensures InSyncBut(lib, rs', t, wire, stale)
  {
    forall u ensures SyncedAt(lib, rs', t, wire, stale, u) {
      assert SyncedAt(lib, rs, t, wire, stale, u);
      if u in rs' && Announces(lib, rs'[u]) {
        assert AnnouncedSet(lib, rs'[u], t) == AnnouncedSet(lib, rs[u], t);
        assert StitchesAny(rs'[u], stale) <==> StitchesAny(rs[u], stale);
      }
    }
  }

  lemma CreateDelivers(lib: IpLib, rs: Routers, sent: map<string, Table>, t: Table, r: Router, before: Wire,
    after: Wire)
    requires Keyed(rs) && Delivered(lib, rs, sent, before) && r.uuid !in rs &&
      Resent(lib, rs[r.uuid := r], t, {r.uuid}, before, after)
    ensures Delivered(lib, rs[r.uuid := r], SentTo(sent, {r.uuid}, t), after)
  {
    var rs' := rs[r.uuid := r];
    forall u | u != r.uuid ensures DeliveredAt(lib, rs', sent, before, u) {
      assert DeliveredAt(lib, rs, sent, before, u);
    }
    ResendDelivers(lib, rs', sent, t, {r.uuid}, before, after);
  }

  lemma DeleteDelivers(lib: IpLib, rs: Routers, sent: map<string, Table>, uuid: string, before: Wire)
    requires Keyed(rs) && Delivered(lib, rs, sent, before)
    ensures Delivered(lib, rs - {uuid}, sent, before[SubjectFor(uuid) := EMPTY_STATE])
    ensures Delivered(lib, rs - {uuid}, sent, before)
  {
    var rs', after := rs - {uuid}, before[SubjectFor(uuid) := EMPTY_STATE];
    forall u ensures DeliveredAt(lib, rs', sent, after, u) {
      assert DeliveredAt(lib, rs, sent, before, u);
      if u != uuid && SubjectFor(u) == SubjectFor(uuid) { SubjectForInjective(u, uuid); }
    }
    forall u ensures DeliveredAt(lib, rs', sent, before, u) { assert DeliveredAt(lib, rs, sent, before, u); }
  }

  lemma StatusDelivers(lib: IpLib, rs: Routers, rs': Routers, sent: map<string, Table>, wire: Wire)
    requires Keyed(rs) && Keyed(rs') && Delivered(lib, rs, sent, wire) && rs'.Keys == rs.Keys
    requires forall u :: u in rs ==> rs'[u] == rs[u].(status := rs'[u].status, peerState := rs'[u].peerState)
    ensures Delivered(lib, rs', sent, wire)
  {
    forall u ensures DeliveredAt(lib, rs', sent, wire, u) {
      assert DeliveredAt(lib, rs, sent, wire, u);
      if u in rs' && Announces(lib, rs'[u]) {
        assert AnnouncedSet(lib, rs'[u], sent[u]) == AnnouncedSet(lib, rs[u], sent[u]);
      }
    }
  }
}
