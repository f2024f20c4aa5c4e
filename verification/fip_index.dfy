/**
 The floating-IP index. Every view it serves (the per-network grouping, the gauge, the active lookup,
 the change sets of a full replace) is specified as a function of one table, uuid -> entry.
 */
module FipIndex {
  import opened Sets
  import opened Sorting

  datatype Entry = Entry(
    uuid: string, projectUUID: string, networkUUID: string, address: string,
    mapped: bool, targetKind: string, target: string)

  const ZERO_ENTRY := Entry("", "", "", "", false, "", "")

  type Table = map<string, Entry>

  // ---- What the index means, in terms of the table ----

  /** Every key is the non-empty uuid of its entry. */
  ghost predicate WellKeyed(t: Table) {
    forall u :: u in t ==> u != "" && t[u].uuid == u
  }

  predicate IsActive(e: Entry) {
    e.mapped && e.address != ""
  }

  /** The uuids that sit on network n. */
  ghost function Members(t: Table, n: string): set<string> {
    set u | u in t && t[u].networkUUID == n
  }

  /** The uuids whose address is announced for network n. */
  ghost function ActiveIn(t: Table, n: string): set<string> {
    set u | u in t && t[u].networkUUID == n && IsActive(t[u])
  }

  /** The addresses announced for network n. */
  ghost function AddrSet(t: Table, n: string): set<string> {
    set u | u in ActiveIn(t, n) :: t[u].address
  }

  /** Floating IP u is announced on network n under address a. */
  ghost predicate ActiveAt(t: Table, u: string, n: string, a: string) {
    u in t && t[u].mapped && t[u].networkUUID == n && n != "" && t[u].address == a && a != ""
  }

  /** The address set of a network holds what some floating IP is announced under there, and nothing else. */
  lemma AddrSetMeaning(t: Table, n: string)
    requires n != ""
    ensures forall a :: a in AddrSet(t, n) <==> exists u :: ActiveAt(t, u, n, a)
  {
    forall a ensures a in AddrSet(t, n) <==> exists u :: ActiveAt(t, u, n, a) {
      if a in AddrSet(t, n) {
        var u :| u in ActiveIn(t, n) && t[u].address == a;
        assert ActiveAt(t, u, n, a);
      }
      if u :| ActiveAt(t, u, n, a) { assert u in ActiveIn(t, n); }
    }
  }

  /** The floating IPs announced under a on one of the networks. */
  ghost function AnnouncedUnder(t: Table, networks: seq<string>, a: string): set<string> {
    set u | u in t && t[u].networkUUID in networks && ActiveAt(t, u, t[u].networkUUID, a)
  }

  /** netUUID groups t by non-empty network and holds no empty group. */
  ghost predicate IsGrouping(t: Table, netUUID: map<string, set<string>>) {
    && (forall n :: n in netUUID <==> n != "" && Members(t, n) != {})
    && (forall n :: n in netUUID ==> netUUID[n] == Members(t, n))
  }

  function GaugeValue(gauge: map<string, nat>, n: string): nat {
    if n in gauge then gauge[n] else 0
  }

  /** Every network's gauge, zero when never set, counts its active floating IPs. */
  ghost predicate GaugeExact(t: Table, gauge: map<string, nat>) {
    && "" !in gauge
    && forall n :: n != "" ==> GaugeValue(gauge, n) == |ActiveIn(t, n)|
  }

  // ---- The (network, address) index ----

  function AddrKey(network: string, address: string): string {
    network + "\0" + address
  }

  function KeyOf(e: Entry): string {
    AddrKey(e.networkUUID, e.address)
  }

  function AddrIndexed(m: map<string, string>, e: Entry): map<string, string> {
    if e.address != "" then m[KeyOf(e) := e.uuid] else m
  }

  function AddrUnindexed(m: map<string, string>, e: Entry): map<string, string> {
    if e.address != "" then m - {KeyOf(e)} else m
  }

  function AddrAfterDelete(t: Table, m: map<string, string>, uuid: string): map<string, string> {
    if uuid in t then AddrUnindexed(m, t[uuid]) else m
  }

  function AddrAfterUpsert(t: Table, m: map<string, string>, e: Entry): map<string, string> {
    AddrIndexed(AddrAfterDelete(t, m, e.uuid), e)
  }

  /** Every (network, address) row points at a live entry with that key. */
  ghost predicate AddrSound(t: Table, m: map<string, string>) {
    forall k :: k in m ==> m[k] in t && t[m[k]].address != "" && KeyOf(t[m[k]]) == k
  }

  /** Every live entry with an address is found under its own key. */
  ghost predicate AddrComplete(t: Table, m: map<string, string>) {
    forall u :: u in t && t[u].address != "" ==> KeyOf(t[u]) in m && m[KeyOf(t[u])] == u
  }

  /** Another live entry already holds e's (network, address) pair. */
  ghost predicate Collides(t: Table, e: Entry) {
    e.address != "" && exists u :: u in t && u != e.uuid && t[u].address != "" && KeyOf(t[u]) == KeyOf(e)
  }

  function NetIndexed(m: map<string, set<string>>, e: Entry): map<string, set<string>> {
    if e.networkUUID == "" then m
    else m[e.networkUUID := (if e.networkUUID in m then m[e.networkUUID] else {}) + {e.uuid}]
  }

  function NetUnindexed(m: map<string, set<string>>, e: Entry): map<string, set<string>> {
    if e.networkUUID !in m then m
    else if m[e.networkUUID] - {e.uuid} == {} then m - {e.networkUUID}
    else m[e.networkUUID := m[e.networkUUID] - {e.uuid}]
  }

  /** The three linked maps agree: grouping exact, address rows sound. */
  ghost predicate IsLinked(t: Table, m: map<string, string>, net: map<string, set<string>>) {
    WellKeyed(t) && IsGrouping(t, net) && AddrSound(t, m)
  }

  lemma GroupingAfterIndex(t: Table, net: map<string, set<string>>, e: Entry)
    requires IsGrouping(t, net) && e.uuid !in t
    ensures IsGrouping(t[e.uuid := e], NetIndexed(net, e))
  {
    var t', net' := t[e.uuid := e], NetIndexed(net, e);
    forall n ensures Members(t', n) == Members(t, n) + (if n == e.networkUUID then {e.uuid} else {}) {}
    forall n ensures n in net' <==> n != "" && Members(t', n) != {} {
      if n == e.networkUUID { assert e.uuid in Members(t', n); }
    }
  }

  lemma GroupingAfterUnindex(t: Table, net: map<string, set<string>>, e: Entry)
    requires IsGrouping(t, net) && e.uuid in t && t[e.uuid] == e
    ensures IsGrouping(t - {e.uuid}, NetUnindexed(net, e))
  {
    var t' := t - {e.uuid};
    forall n ensures Members(t', n) == Members(t, n) - (if n == e.networkUUID then {e.uuid} else {}) {}
    assert e.uuid in Members(t, e.networkUUID);
  }

  lemma LinkedAfterIndex(t: Table, m: map<string, string>, net: map<string, set<string>>, e: Entry)
    requires IsLinked(t, m, net) && e.uuid != "" && e.uuid !in t
    ensures IsLinked(t[e.uuid := e], AddrIndexed(m, e), NetIndexed(net, e))
  {
    GroupingAfterIndex(t, net, e);
  }

  lemma LinkedAfterUnindex(t: Table, m: map<string, string>, net: map<string, set<string>>, e: Entry)
    requires IsLinked(t, m, net) && e.uuid in t && t[e.uuid] == e
    ensures IsLinked(t - {e.uuid}, AddrUnindexed(m, e), NetUnindexed(net, e))
  {
    GroupingAfterUnindex(t, net, e);
  }

  lemma UpdateThenDrop<V>(m: map<string, V>, k: string, v: V)
    ensures m[k := v] - {k} == m - {k}
  {}

  // ---- Snapshots ----

  predicate DistinctUUIDs(entries: seq<Entry>) {
    && (forall i :: 0 <= i < |entries| ==> entries[i].uuid != "")
    && (forall i, j :: 0 <= i < j < |entries| ==> entries[i].uuid != entries[j].uuid)
  }

  /** The table a snapshot describes. */
  function TableOf(entries: seq<Entry>): Table {
    if entries == [] then map[]
    else
      var e := entries[|entries| - 1];
      TableOf(entries[..|entries| - 1])[e.uuid := e]
  }

  function AddrOf(entries: seq<Entry>): map<string, string> {
    if entries == [] then map[]
    else AddrIndexed(AddrOf(entries[..|entries| - 1]), entries[|entries| - 1])
  }

  lemma {:induction false} TableOfContents(entries: seq<Entry>)
    requires DistinctUUIDs(entries)
    ensures TableOf(entries).Keys == set e | e in entries :: e.uuid
    ensures forall e :: e in entries ==> TableOf(entries)[e.uuid] == e
    ensures WellKeyed(TableOf(entries))
  {
    if entries != [] {
      var init, last := entries[..|entries| - 1], entries[|entries| - 1];
      TableOfContents(init);
      assert entries == init + [last];
      assert forall e :: e in entries <==> e in init || e == last;
    }
  }

  /** Reading one more entry of a snapshot indexes it under a new uuid. */
  lemma TableOfStep(entries: seq<Entry>, i: nat)
    requires i < |entries| && DistinctUUIDs(entries)
    ensures entries[i].uuid != "" && entries[i].uuid !in TableOf(entries[..i])
    ensures TableOf(entries[..i + 1]) == TableOf(entries[..i])[entries[i].uuid := entries[i]]
    ensures AddrOf(entries[..i + 1]) == AddrIndexed(AddrOf(entries[..i]), entries[i])
  {
    TableOfContents(entries[..i]);
    assert entries[..i + 1][..i] == entries[..i];
  }

  // ---- The change sets of a full replace ----

  function AddrsAt(active: map<string, set<string>>, n: string): set<string> {
    if n in active then active[n] else {}
  }

  ghost predicate Gained(before: Table, after: Table, n: string) {
    n != "" && AddrSet(before, n) == {} && AddrSet(after, n) != {}
  }

  ghost predicate Lost(before: Table, after: Table, n: string) {
    n != "" && AddrSet(before, n) != {} && AddrSet(after, n) == {}
  }

  ghost predicate Churned(before: Table, after: Table, n: string) {
    n != "" && AddrSet(before, n) != {} && AddrSet(after, n) != {} && AddrSet(before, n) != AddrSet(after, n)
  }

  // ---- The active lookup ----

  function NetSet(networks: seq<string>): set<string> {
    set n | n in networks
  }

  /** The uuids a lookup over nets announces. */
  ghost function ActiveOver(t: Table, nets: set<string>): set<string> {
    set u | u in t && t[u].networkUUID != "" && t[u].networkUUID in nets && IsActive(t[u])
  }

  ghost function ActiveAmong(t: Table, uuids: set<string>): set<string> {
    set u | u in uuids && u in t && IsActive(t[u])
  }

  ghost function Holders(t: Table, uuids: set<string>, a: string): set<string> {
    set u | u in uuids && u in t && t[u].address == a
  }

  /** out lists the address of every uuid in uuids, once per uuid. */
  ghost predicate Tally(t: Table, uuids: set<string>, out: seq<string>) {
    && |out| == |uuids|
    && forall a :: multiset(out)[a] == |Holders(t, uuids, a)|
  }

  /** out is what a plain scan of the table gives for nets, sorted. */
  ghost predicate IsLookup(t: Table, nets: set<string>, out: seq<string>) {
    Sorted(out, StringLeq) && Tally(t, ActiveOver(t, nets), out)
  }

  lemma TallyAdd(t: Table, uuids: set<string>, out: seq<string>, u: string)
    requires Tally(t, uuids, out) && u in t && u !in uuids
    ensures Tally(t, uuids + {u}, out + [t[u].address])
  {
    forall a ensures multiset(out + [t[u].address])[a] == |Holders(t, uuids + {u}, a)| {
      if a == t[u].address {
        assert Holders(t, uuids + {u}, a) == Holders(t, uuids, a) + {u};
      } else {
        assert Holders(t, uuids + {u}, a) == Holders(t, uuids, a);
      }
    }
  }

  /** Scanning one more entry: it adds its address exactly when it is active. */
  lemma TallyVisit(t: Table, before: set<string>, visited: set<string>, u: string, out: seq<string>)
    requires u in t && u !in before && u !in visited
    requires Tally(t, before + ActiveAmong(t, visited), out)
    ensures IsActive(t[u]) ==> Tally(t, before + ActiveAmong(t, visited + {u}), out + [t[u].address])
    ensures !IsActive(t[u]) ==> Tally(t, before + ActiveAmong(t, visited + {u}), out)
  {
    if IsActive(t[u]) {
      TallyAdd(t, before + ActiveAmong(t, visited), out, u);
      assert before + ActiveAmong(t, visited + {u}) == before + ActiveAmong(t, visited) + {u};
    } else {
      assert ActiveAmong(t, visited + {u}) == ActiveAmong(t, visited);
    }
  }

  lemma NetworkShare(t: Table, netUUID: map<string, set<string>>, done: set<string>, n: string)
    requires IsGrouping(t, netUUID) && n !in done
    ensures ActiveOver(t, done) + ActiveAmong(t, {}) == ActiveOver(t, done)
    ensures ActiveOver(t, done) + ActiveAmong(t, if n in netUUID then netUUID[n] else {}) == ActiveOver(t, done + {n})
    ensures forall u :: u in (if n in netUUID then netUUID[n] else {}) ==> u in t && u !in ActiveOver(t, done)
  {
    assert n !in netUUID && n != "" ==> Members(t, n) == {};
    forall u | u in ActiveOver(t, done + {n}) && u !in ActiveOver(t, done)
      ensures n in netUUID && u in netUUID[n]
    {
      assert u in Members(t, n);
    }
  }

  /** A snapshot of the grouped networks gives every network's address set, absent ones counting as empty. */
  lemma SnapshotAddrs(t: Table, netUUID: map<string, set<string>>, active: map<string, set<string>>)
    requires IsGrouping(t, netUUID) && active.Keys == netUUID.Keys
    requires forall n :: n in active ==> active[n] == AddrSet(t, n)
    ensures forall n :: n != "" ==> AddrsAt(active, n) == AddrSet(t, n)
    ensures forall n :: n != "" && n !in active ==> ActiveIn(t, n) == {}
    ensures "" !in active
  {
    forall n | n != "" && n !in active ensures ActiveIn(t, n) == {} {
      assert Members(t, n) == {};
      assert forall u :: u in ActiveIn(t, n) ==> u in Members(t, n);
    }
  }

  /** The lookup depends on the table and the set of networks only: not on list order, repetition or map order. */
  lemma LookupUnique(t: Table, nets: set<string>, a: seq<string>, b: seq<string>)
    requires IsLookup(t, nets, a) && IsLookup(t, nets, b)
    ensures a == b
  {
    forall x ensures multiset(a)[x] == multiset(b)[x] {
      assert multiset(a)[x] == |Holders(t, ActiveOver(t, nets), x)|;
    }
    assert multiset(a) == multiset(b);
    StringLeqIsTotalOrder();
    SortedUnique(a, b, StringLeq);
  }

  lemma LookupAddresses(t: Table, nets: set<string>, out: seq<string>)
    requires IsLookup(t, nets, out)
    ensures forall a :: a in out <==> exists n :: n in nets && n != "" && a in AddrSet(t, n)
  {
    forall a ensures a in out <==> exists n :: n in nets && n != "" && a in AddrSet(t, n) {
      var hs := Holders(t, ActiveOver(t, nets), a);
      assert a in out <==> multiset(out)[a] > 0;
      if a in out {
        assert hs != {};
        var u :| u in hs;
        assert u in ActiveIn(t, t[u].networkUUID);
        assert a in AddrSet(t, t[u].networkUUID);
      }
      if n :| n in nets && n != "" && a in AddrSet(t, n) {
        var u :| u in ActiveIn(t, n) && t[u].address == a;
        assert u in hs;
        assert hs != {};
      }
    }
  }

  /** How often each address is in the lookup: once per floating IP announced under it on one of the networks. */
  lemma LookupMeaning(t: Table, networks: seq<string>, out: seq<string>)
    requires IsLookup(t, NetSet(networks), out)
    ensures forall a :: multiset(out)[a] == |AnnouncedUnder(t, networks, a)|
    ensures forall i, j :: 0 <= i < j < |out| ==> StringLeq(out[i], out[j])
  {
    forall a ensures multiset(out)[a] == |AnnouncedUnder(t, networks, a)| {
      var hs := Holders(t, ActiveOver(t, NetSet(networks)), a);
      forall u ensures u in hs <==> u in AnnouncedUnder(t, networks, a) {}
      assert hs == AnnouncedUnder(t, networks, a);
      assert multiset(out)[a] == |hs|;
    }
  }

  /** The gauge of a network is the length of the active lookup for that one network. */
  lemma GaugeIsLookupLength(t: Table, gauge: map<string, nat>, n: string, out: seq<string>)
    requires GaugeExact(t, gauge) && IsLookup(t, {n}, out)
    ensures GaugeValue(gauge, n) == |out|
    ensures GaugeValue(gauge, n) == |set u | u in t && ActiveAt(t, u, n, t[u].address)|
  {
    if n == "" {
      assert ActiveOver(t, {n}) == {};
    } else {
      assert ActiveOver(t, {n}) == ActiveIn(t, n);
    }
    assert ActiveOver(t, {n}) == set u | u in t && ActiveAt(t, u, n, t[u].address);
  }

  // ---- The index ----

  class Index {
    var byUUID: Table
    var byAddr: map<string, string>
    var netUUID: map<string, set<string>>
    var gauge: map<string, nat>

    ghost predicate Linked()
      reads this
    {
      IsLinked(byUUID, byAddr, netUUID)
    }

    ghost predicate Valid()
      reads this
    {
      Linked() && GaugeExact(byUUID, gauge)
    }

    constructor ()
      ensures Valid() && byUUID == map[] && byAddr == map[] && netUUID == map[] && gauge == map[]
    {
      byUUID, byAddr, netUUID, gauge := map[], map[], map[], map[];
    }

    method Upsert(e: Entry) returns (prev: Entry)
      requires Valid() && e.uuid != ""
      modifies this
      ensures Valid() && byUUID == old(byUUID)[e.uuid := e]
      ensures byAddr == AddrAfterUpsert(old(byUUID), old(byAddr), e)
      ensures prev == if e.uuid in old(byUUID) then old(byUUID)[e.uuid] else ZERO_ENTRY
    {
      prev := if e.uuid in byUUID then byUUID[e.uuid] else ZERO_ENTRY;
      if prev.uuid != "" {
        UnindexLocked(prev);
      }
      IndexLocked(e);
      var touched := NetworksTouched(prev, e);
      assert byUUID == old(byUUID)[e.uuid := e];
      UpsertTouches(old(byUUID), e, prev, touched);
      RefreshGaugeLocked(touched);
    }

    method Delete(uuid: string) returns (prev: Entry)
      requires Valid()
      modifies this
      ensures Valid() && byUUID == old(byUUID) - {uuid}
      ensures byAddr == AddrAfterDelete(old(byUUID), old(byAddr), uuid)
      ensures prev == if uuid in old(byUUID) then old(byUUID)[uuid] else ZERO_ENTRY
    {
      if uuid !in byUUID {
        return ZERO_ENTRY;
      }
      prev := byUUID[uuid];
      UnindexLocked(prev);
      forall n | n != prev.networkUUID ensures ActiveIn(byUUID, n) == ActiveIn(old(byUUID), n) {}
      RefreshGaugeLocked({prev.networkUUID});
    }

    method ActiveFIPsInNetworks(networks: seq<string>) returns (out: seq<string>)
      requires Valid()
      ensures IsLookup(byUUID, NetSet(networks), out)
      ensures forall a :: multiset(out)[a] == |AnnouncedUnder(byUUID, networks, a)|
      ensures forall i, j :: 0 <= i < j < |out| ==> StringLeq(out[i], out[j])
    {
      out := SortedLookup(networks);
      LookupMeaning(byUUID, networks, out);
    }

    method SortedLookup(networks: seq<string>) returns (out: seq<string>)
      requires Valid()
      ensures IsLookup(byUUID, NetSet(networks), out)
    {
      if |networks| == 0 {
        assert ActiveOver(byUUID, NetSet(networks)) == {};
        return [];
      }
      var wanted := NetSet(networks);
      var left, done: set<string> := wanted, {};
      out := [];
      while left != {}
        invariant left + done == wanted && left !! done
        invariant Tally(byUUID, ActiveOver(byUUID, done), out)
        decreases left
      {
        var net :| net in left;
        out := AppendActive(net, done, out);
        left, done := left - {net}, done + {net};
      }
      assert done == wanted;
      ghost var unsorted := out;
      out := Sort(out, StringLeq);
      StringLeqIsTotalOrder();
      SortSorted(unsorted, StringLeq);
      assert |multiset(out)| == |out| && |multiset(unsorted)| == |unsorted|;
    }

    /** One network's share of the lookup: its active addresses, appended. */
    method AppendActive(net: string, ghost done: set<string>, soFar: seq<string>) returns (out: seq<string>)
      requires Linked() && net !in done
      requires Tally(byUUID, ActiveOver(byUUID, done), soFar)
      ensures Tally(byUUID, ActiveOver(byUUID, done + {net}), out)
    {
      out := soFar;
      ghost var before := ActiveOver(byUUID, done);
      var members := if net in netUUID then netUUID[net] else {};
      var uuids := members;
      NetworkShare(byUUID, netUUID, done, net);
      ghost var visited: set<string> := {};
      while uuids != {}
        invariant uuids + visited == members && uuids !! visited
        invariant Tally(byUUID, before + ActiveAmong(byUUID, visited), out)
        decreases uuids
      {
        var uuid :| uuid in uuids;
        var e := byUUID[uuid];
        TallyVisit(byUUID, before, visited, uuid, out);
        MoveOne(uuids, visited, uuid);
        out := if e.mapped && e.address != "" then out + [e.address] else out;
        uuids, visited := uuids - {uuid}, visited + {uuid};
      }
      assert visited == members;
    }

    /** The active address set of every grouped network. */
    method ActiveSnapshot() returns (active: map<string, set<string>>)
      requires Linked()
      ensures active.Keys == netUUID.Keys
      ensures forall n :: n in active ==> active[n] == AddrSet(byUUID, n)
    {
      active := map[];
      var left := netUUID.Keys;
      while left != {}
        invariant left <= netUUID.Keys && active.Keys == netUUID.Keys - left
        invariant forall n :: n in active ==> active[n] == AddrSet(byUUID, n)
        decreases left
      {
        var net :| net in left;
        var acc: set<string> := {};
        var uuids := netUUID[net];
        while uuids != {}
          invariant uuids <= netUUID[net]
          invariant acc == set u | u in netUUID[net] - uuids && IsActive(byUUID[u]) :: byUUID[u].address
          decreases uuids
        {
          var uuid :| uuid in uuids;
          var e := byUUID[uuid];
          ghost var visited := netUUID[net] - uuids;
          assert netUUID[net] - (uuids - {uuid}) == visited + {uuid};
          if e.mapped && e.address != "" {
            acc := acc + {e.address};
          }
          uuids := uuids - {uuid};
        }
        assert acc == AddrSet(byUUID, net);
        active := active[net := acc];
        left := left - {net};
      }
    }

    method ReplaceAll(entries: seq<Entry>) returns (added: set<string>, removed: set<string>, churned: set<string>)
      requires Valid() && DistinctUUIDs(entries)
      modifies this
      ensures Valid() && byUUID == TableOf(entries) && byAddr == AddrOf(entries)
      ensures forall n :: n in added <==> Gained(old(byUUID), byUUID, n)
      ensures forall n :: n in removed <==> Lost(old(byUUID), byUUID, n)
      ensures forall n :: n in churned <==> Churned(old(byUUID), byUUID, n)
    {
      ghost var before := byUUID;
      var priorActive := ActiveSnapshot();
      SnapshotAddrs(byUUID, netUUID, priorActive);
      Rebuild(entries);
      var newActive := ActiveSnapshot();
      SnapshotAddrs(byUUID, netUUID, newActive);
      added, removed, churned := Deltas(priorActive, newActive);
      RefreshGaugeLocked(priorActive.Keys + newActive.Keys);
    }

    /** The rebuild pass of ReplaceAll: index every entry from scratch. */
    method Rebuild(entries: seq<Entry>)
      requires DistinctUUIDs(entries)
      modifies this
      ensures Linked() && gauge == old(gauge)
      ensures byUUID == TableOf(entries) && byAddr == AddrOf(entries)
    {
      byUUID, byAddr, netUUID := map[], map[], map[];
      for i := 0 to |entries|
        invariant Linked() && gauge == old(gauge)
        invariant byUUID == TableOf(entries[..i]) && byAddr == AddrOf(entries[..i])
      {
        TableOfStep(entries, i);
        IndexLocked(entries[i]);
      }
      assert entries[..|entries|] == entries;
    }

    /** The delta pass of ReplaceAll over two address snapshots; an absent network counts as empty. */
    static method Deltas(prior: map<string, set<string>>, next: map<string, set<string>>)
      returns (added: set<string>, removed: set<string>, churned: set<string>)
      ensures forall n :: n in added <==> AddrsAt(prior, n) == {} && AddrsAt(next, n) != {}
      ensures forall n :: n in removed <==> AddrsAt(prior, n) != {} && AddrsAt(next, n) == {}
      ensures forall n :: n in churned <==>
        AddrsAt(prior, n) != {} && AddrsAt(next, n) != {} && AddrsAt(prior, n) != AddrsAt(next, n)
    {
      added, removed, churned := {}, {}, {};
      var allNets := prior.Keys + next.Keys;
      var left := allNets;
      while left != {}
        invariant left <= allNets
        invariant forall n :: n in added <==>
          n in allNets - left && AddrsAt(prior, n) == {} && AddrsAt(next, n) != {}
        invariant forall n :: n in removed <==>
          n in allNets - left && AddrsAt(prior, n) != {} && AddrsAt(next, n) == {}
        invariant forall n :: n in churned <==>
          n in allNets - left && AddrsAt(prior, n) != {} && AddrsAt(next, n) != {} &&
            AddrsAt(prior, n) != AddrsAt(next, n)
        decreases left
      {
        var net :| net in left;
        var p, q := AddrsAt(prior, net), AddrsAt(next, net);
        var same := SameAddrSet(p, q);
        if |p| == 0 && |q| > 0 {
          added := added + {net};
        } else if |p| > 0 && |q| == 0 {
          removed := removed + {net};
        } else if !same {
          churned := churned + {net};
        }
        left := left - {net};
      }
    }

    static method SameAddrSet(a: set<string>, b: set<string>) returns (same: bool)
      ensures same <==> a == b
    {
      if |a| != |b| {
        return false;
      }
      var left := a;
      while left != {}
        invariant left <= a && a - left <= b
        decreases left
      {
        var addr :| addr in left;
        if addr !in b {
          return false;
        }
        left := left - {addr};
      }
      SubsetSameSize(a, b);
      return true;
    }

    /** Every entry, sorted by uuid. */
    method All() returns (out: seq<Entry>)
      requires Valid()
      ensures DistinctUUIDs(out) && TableOf(out) == byUUID
      ensures Sorted(out, ByUUID) && forall i, j :: 0 <= i < j < |out| ==> StringLeq(out[i].uuid, out[j].uuid)
    {
      out := [];
      var left := byUUID.Keys;
      while left != {}
        invariant left <= byUUID.Keys
        invariant ListsEntries(out, byUUID.Keys - left, byUUID)
        decreases left
      {
        var uuid :| uuid in left;
        assert byUUID.Keys - (left - {uuid}) == (byUUID.Keys - left) + {uuid};
        out := out + [byUUID[uuid]];
        left := left - {uuid};
      }
      ghost var unsorted := out;
      out := Sort(out, ByUUID);
      ByUUIDIsPreorder();
      SortSorted(unsorted, ByUUID);
      ListingPermuted(unsorted, out, byUUID);
      ListingRebuilds(out, byUUID);
    }

    method IndexLocked(e: Entry)
      requires Linked() && e.uuid != "" && e.uuid !in byUUID
      modifies this
      ensures Linked() && gauge == old(gauge)
      ensures byUUID == old(byUUID)[e.uuid := e] && byAddr == AddrIndexed(old(byAddr), e)
    {
      byUUID := byUUID[e.uuid := e];
      if e.address != "" {
        byAddr := byAddr[AddrKey(e.networkUUID, e.address) := e.uuid];
      }
      if e.networkUUID != "" {
        if e.networkUUID !in netUUID {
          netUUID := netUUID[e.networkUUID := {}];
        }
        netUUID := netUUID[e.networkUUID := netUUID[e.networkUUID] + {e.uuid}];
      }
      assert netUUID == NetIndexed(old(netUUID), e);
      LinkedAfterIndex(old(byUUID), old(byAddr), old(netUUID), e);
    }

    method UnindexLocked(e: Entry)
      requires Linked() && e.uuid in byUUID && byUUID[e.uuid] == e
      modifies this
      ensures Linked() && gauge == old(gauge)
      ensures byUUID == old(byUUID) - {e.uuid} && byAddr == AddrUnindexed(old(byAddr), e)
    {
      byUUID := byUUID - {e.uuid};
      if e.address != "" {
        byAddr := byAddr - {AddrKey(e.networkUUID, e.address)};
      }
      LeaveGroup(e);
      LinkedAfterUnindex(old(byUUID), old(byAddr), old(netUUID), e);
    }

    /** Takes the entry out of its network's group, and the group out when it was the last. */
    method LeaveGroup(e: Entry)
      modifies this`netUUID
      ensures netUUID == NetUnindexed(old(netUUID), e)
    {
      var n := e.networkUUID;
      if n in netUUID {
        var members := netUUID[n] - {e.uuid};
        UpdateThenDrop(netUUID, n, members);
        netUUID := netUUID[n := members];
        if |members| == 0 {
          netUUID := netUUID - {n};
        }
      }
    }

    method RefreshGaugeLocked(touched: set<string>)
      requires Linked() && "" !in gauge
      modifies this`gauge
      ensures "" !in gauge
      ensures forall n :: n != "" && n in touched ==> GaugeValue(gauge, n) == |ActiveIn(byUUID, n)|
      ensures forall n :: n !in touched ==> GaugeValue(gauge, n) == GaugeValue(old(gauge), n)
    {
      var left := touched;
      while left != {}
        invariant left <= touched && "" !in gauge
        invariant forall n :: n != "" && n in touched - left ==> GaugeValue(gauge, n) == |ActiveIn(byUUID, n)|
        invariant forall n :: n !in touched ==> GaugeValue(gauge, n) == GaugeValue(old(gauge), n)
        decreases left
      {
        var net :| net in left;
        left := left - {net};
        if net != "" {
          var n := 0;
          var members := if net in netUUID then netUUID[net] else {};
          var uuids := members;
          ghost var counted: set<string> := {};
          while uuids != {}
            invariant uuids <= members && n == |counted|
            invariant counted == set u | u in members - uuids && IsActive(byUUID[u])
            decreases uuids
          {
            var uuid :| uuid in uuids;
            var e := byUUID[uuid];
            if e.mapped && e.address != "" {
              n := n + 1;
              counted := counted + {uuid};
            }
            uuids := uuids - {uuid};
          }
          assert members == Members(byUUID, net);
          assert counted == ActiveIn(byUUID, net);
          gauge := gauge[net := n];
        }
      }
    }
  }

  /** The networks an upsert can change: the previous entry's and the next one's. */
  function NetworksTouched(prev: Entry, next: Entry): (touched: set<string>) {
    (if prev.networkUUID != "" then {prev.networkUUID} else {}) +
    (if next.networkUUID != "" then {next.networkUUID} else {})
  }

  /** Only the networks an entry leaves or joins can change what they announce. */
  lemma UpsertTouches(t: Table, e: Entry, prev: Entry, touched: set<string>)
    requires prev == if e.uuid in t then t[e.uuid] else ZERO_ENTRY
    requires touched == NetworksTouched(prev, e)
    ensures forall n :: n != "" && n !in touched ==> ActiveIn(t[e.uuid := e], n) == ActiveIn(t, n)
  {
    forall n | n != "" && n !in touched ensures ActiveIn(t[e.uuid := e], n) == ActiveIn(t, n) {
      assert e.networkUUID != n && prev.networkUUID != n;
    }
  }

  lemma MoveOne<T>(from: set<T>, to: set<T>, x: T)
    requires from !! to && x in from
    ensures from - {x} !! to + {x} && (from - {x}) + (to + {x}) == from + to
  {}

  // ---- Listing the table ----

  predicate ByUUID(a: Entry, b: Entry) {
    StringLeq(a.uuid, b.uuid)
  }

  lemma ByUUIDIsPreorder()
    ensures TotalPreorder(ByUUID)
  {
    StringLeqIsTotalOrder();
  }

  ghost predicate ListsEntries(out: seq<Entry>, uuids: set<string>, t: Table) {
    && (forall i :: 0 <= i < |out| ==> out[i].uuid in uuids && out[i].uuid in t && t[out[i].uuid] == out[i])
    && (forall u :: u in uuids ==> u in t && t[u] in out)
    && (forall i, j :: 0 <= i < j < |out| ==> out[i].uuid != out[j].uuid)
  }

  lemma MultisetDistinct<T>(s: seq<T>, i: int, j: int)
    requires 0 <= i < j < |s| && s[i] == s[j]
    ensures multiset(s)[s[i]] >= 2
  {
    assert s == s[..j] + [s[j]] + s[j + 1..];
    assert s[i] in s[..j];
  }

  lemma {:induction false} DistinctMultiset<T>(s: seq<T>, x: T)
    requires forall i, j :: 0 <= i < j < |s| ==> s[i] != s[j]
    ensures multiset(s)[x] <= 1
  {
    if s != [] {
      DistinctMultiset(s[1..], x);
      assert s == [s[0]] + s[1..];
      if x == s[0] { assert x !in s[1..]; }
    }
  }

  lemma ListingPermuted(a: seq<Entry>, b: seq<Entry>, t: Table)
    requires WellKeyed(t) && ListsEntries(a, t.Keys, t) && multiset(a) == multiset(b)
    ensures ListsEntries(b, t.Keys, t)
  {
    assert forall x :: x in a <==> x in multiset(a);
    assert forall x :: x in b <==> x in multiset(b);
    assert forall i :: 0 <= i < |b| ==> b[i] in a;
    forall i, j | 0 <= i < j < |b| ensures b[i].uuid != b[j].uuid {
      if b[i].uuid == b[j].uuid {
        assert b[i] == b[j];
        MultisetDistinct(b, i, j);
        DistinctMultiset(a, b[i]);
      }
    }
  }

  lemma ListingRebuilds(out: seq<Entry>, t: Table)
    requires WellKeyed(t) && ListsEntries(out, t.Keys, t)
    ensures DistinctUUIDs(out) && TableOf(out) == t
  {
    TableOfContents(out);
    forall u | u in t ensures u in TableOf(out) && TableOf(out)[u] == t[u] {
      var i :| 0 <= i < |out| && out[i] == t[u];
      assert out[i].uuid == u;
    }
  }
}
