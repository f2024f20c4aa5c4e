/**
 What the index promises as a whole: exact change sets, the incremental path against the full rebuild,
 and how far the (network, address) rows can be trusted.
 */
module FipViews {
  import opened FipIndex

  // ---- Change sets ----

  /** The three change sets are pairwise disjoint and together name exactly the networks whose announce set changed. */
  lemma ChangeSetsPartition(before: Table, after: Table, added: set<string>, removed: set<string>, churned: set<string>)
    requires forall n :: n in added <==> Gained(before, after, n)
    requires forall n :: n in removed <==> Lost(before, after, n)
    requires forall n :: n in churned <==> Churned(before, after, n)
    ensures added !! removed && added !! churned && removed !! churned
    ensures forall n :: n in added + removed + churned <==> n != "" && AddrSet(before, n) != AddrSet(after, n)
  {
  }

  // ---- Views are functions of the table ----

  /** Two valid indexes over the same table answer every query alike, whatever updates led to each. */
  lemma SameTableSameViews(t: Table, net1: map<string, set<string>>, net2: map<string, set<string>>,
                           g1: map<string, nat>, g2: map<string, nat>)
    requires IsGrouping(t, net1) && IsGrouping(t, net2) && GaugeExact(t, g1) && GaugeExact(t, g2)
    ensures net1 == net2
    ensures forall n :: GaugeValue(g1, n) == GaugeValue(g2, n)
    ensures forall nets, a, b :: IsLookup(t, nets, a) && IsLookup(t, nets, b) ==> a == b
  {
    forall nets, a, b | IsLookup(t, nets, a) && IsLookup(t, nets, b) ensures a == b {
      LookupUnique(t, nets, a, b);
    }
    forall n ensures GaugeValue(g1, n) == GaugeValue(g2, n) {
      if n != "" { assert GaugeValue(g1, n) == |ActiveIn(t, n)|; }
    }
  }

  /** Rebuilding from the index's own listing restores the table and reports no change at all. */
  lemma RebuildFromListing(t: Table, all: seq<Entry>, added: set<string>, removed: set<string>, churned: set<string>)
    requires DistinctUUIDs(all) && TableOf(all) == t
    requires forall n :: n in added <==> Gained(t, TableOf(all), n)
    requires forall n :: n in removed <==> Lost(t, TableOf(all), n)
    requires forall n :: n in churned <==> Churned(t, TableOf(all), n)
    ensures added == removed == churned == {}
  {
  }

  /** ReplaceAll fed with All leaves every view as it was and reports three empty sets. */
  method ReplaceWithOwnListing(idx: Index) returns (added: set<string>, removed: set<string>, churned: set<string>)
    requires idx.Valid()
    modifies idx
    ensures added == removed == churned == {}
    ensures idx.Valid() && idx.byUUID == old(idx.byUUID) && idx.netUUID == old(idx.netUUID)
    ensures forall n :: GaugeValue(idx.gauge, n) == GaugeValue(old(idx.gauge), n)
  {
    var all := idx.All();
    added, removed, churned := idx.ReplaceAll(all);
    RebuildFromListing(old(idx.byUUID), all, added, removed, churned);
    SameTableSameViews(idx.byUUID, idx.netUUID, old(idx.netUUID), idx.gauge, old(idx.gauge));
  }

  // ---- The (network, address) rows ----

  ghost predicate NulFree(s: string) {
    '\0' !in s
  }

  /** The composite key separates network from address when networks hold no NUL. */
  lemma {:induction false} AddrKeyInjective(n1: string, a1: string, n2: string, a2: string)
    requires NulFree(n1) && NulFree(n2) && AddrKey(n1, a1) == AddrKey(n2, a2)
    ensures n1 == n2 && a1 == a2
  {
    var k := AddrKey(n1, a1);
    assert k[|n1|] == '\0' && k[|n2|] == '\0';
    if |n1| != |n2| {
      assert false;
    }
    assert n1 == k[..|n1|] == n2;
    assert a1 == k[|n1| + 1..] == a2;
  }

  /** A row under (network, address) is a live entry with that very network and address. */
  lemma AddrRowMeaning(t: Table, m: map<string, string>, network: string, address: string)
    requires AddrSound(t, m) && AddrKey(network, address) in m
    requires NulFree(network) && forall u :: u in t ==> NulFree(t[u].networkUUID)
    ensures var u := m[AddrKey(network, address)]; u in t && t[u].networkUUID == network && t[u].address == address
  {
    var e := t[m[AddrKey(network, address)]];
    AddrKeyInjective(e.networkUUID, e.address, network, address);
  }

  /** An upsert keeps the rows complete if and only if the new entry takes nobody else's (network, address) pair. */
  lemma UpsertKeepsRowsComplete(t: Table, m: map<string, string>, e: Entry)
    requires WellKeyed(t) && AddrSound(t, m) && AddrComplete(t, m) && e.uuid != ""
    ensures AddrComplete(t[e.uuid := e], AddrAfterUpsert(t, m, e)) <==> !Collides(t, e)
  {
    var t', m' := t[e.uuid := e], AddrAfterUpsert(t, m, e);
    if Collides(t, e) {
      var u :| u in t && u != e.uuid && t[u].address != "" && KeyOf(t[u]) == KeyOf(e);
      assert u in t' && t'[u] == t[u] && m'[KeyOf(t'[u])] == e.uuid;
    } else {
      forall u | u in t' && t'[u].address != "" ensures KeyOf(t'[u]) in m' && m'[KeyOf(t'[u])] == u {
        if u != e.uuid {
          assert m[KeyOf(t[u])] == u;
          if e.uuid in t && t[e.uuid].address != "" {
            assert m[KeyOf(t[e.uuid])] == e.uuid;
          }
        }
      }
    }
  }

  lemma DeleteKeepsRowsComplete(t: Table, m: map<string, string>, uuid: string)
    requires WellKeyed(t) && AddrSound(t, m) && AddrComplete(t, m)
    ensures AddrComplete(t - {uuid}, AddrAfterDelete(t, m, uuid))
  {
    forall u | u in t && u != uuid && t[u].address != ""
      ensures KeyOf(t[u]) in AddrAfterDelete(t, m, uuid)
    {
      if uuid in t && t[uuid].address != "" {
        assert m[KeyOf(t[uuid])] == uuid;
      }
    }
  }

  ghost predicate DistinctPairs(entries: seq<Entry>) {
    forall i, j :: 0 <= i < j < |entries| && entries[i].address != "" && entries[j].address != ""
      ==> KeyOf(entries[i]) != KeyOf(entries[j])
  }

  lemma {:induction false} AddrOfRows(entries: seq<Entry>)
    ensures forall k :: k in AddrOf(entries) <==> exists e :: e in entries && e.address != "" && KeyOf(e) == k
    ensures forall k :: k in AddrOf(entries) ==>
      exists e :: e in entries && e.address != "" && KeyOf(e) == k && AddrOf(entries)[k] == e.uuid
  {
    if entries != [] {
      var init, last := entries[..|entries| - 1], entries[|entries| - 1];
      AddrOfRows(init);
      assert entries == init + [last];
      assert forall e :: e in entries <==> e in init || e == last;
    }
  }

  /** A full replace leaves the rows complete if and only if the snapshot repeats no (network, address) pair. */
  lemma ReplaceRowsComplete(entries: seq<Entry>)
    requires DistinctUUIDs(entries)
    ensures AddrComplete(TableOf(entries), AddrOf(entries)) <==> DistinctPairs(entries)
  {
    TableOfContents(entries);
    AddrOfRows(entries);
    var t, m := TableOf(entries), AddrOf(entries);
    if DistinctPairs(entries) {
      forall u | u in t && t[u].address != "" ensures KeyOf(t[u]) in m && m[KeyOf(t[u])] == u {
        var e :| e in entries && e.uuid == u;
        var f :| f in entries && f.address != "" && KeyOf(f) == KeyOf(e) && m[KeyOf(e)] == f.uuid;
        var i :| 0 <= i < |entries| && entries[i] == e;
        var j :| 0 <= j < |entries| && entries[j] == f;
        assert i == j;
      }
    }
    if AddrComplete(t, m) {
      forall i, j | 0 <= i < j < |entries| && entries[i].address != "" && entries[j].address != ""
        ensures KeyOf(entries[i]) != KeyOf(entries[j])
      {
        assert m[KeyOf(t[entries[i].uuid])] == entries[i].uuid;
        assert m[KeyOf(t[entries[j].uuid])] == entries[j].uuid;
      }
    }
  }

  /**
   Completeness is not a property of the current table alone. Two entries once share a pair, the later owner
   of the row leaves, and the survivor, now the only holder, has no row.
   */
  lemma CollisionOutlivesItself()
    ensures
      var a := Entry("a", "", "n", "192.0.2.1", true, "", "");
      var b := Entry("b", "", "n", "192.0.2.1", true, "", "");
      var t1, m1 := map["a" := a], AddrAfterUpsert(map[], map[], a);
      var t2, m2 := t1["b" := b], AddrAfterUpsert(t1, m1, b);
      var t3, m3 := t2 - {"b"}, AddrAfterDelete(t2, m2, "b");
      t3 == map["a" := a] && m3 == map[] && !AddrComplete(t3, m3)
  {
    var a := Entry("a", "", "n", "192.0.2.1", true, "", "");
    var b := Entry("b", "", "n", "192.0.2.1", true, "", "");
    var m1 := AddrAfterUpsert(map[], map[], a);
    assert m1 == map[KeyOf(a) := "a"];
    var t2 := map["a" := a]["b" := b];
    var m2 := AddrAfterUpsert(map["a" := a], m1, b);
    assert m2 == map[KeyOf(a) := "b"];
    var t3, m3 := t2 - {"b"}, AddrAfterDelete(t2, m2, "b");
    assert t3 == map["a" := a];
    assert m3 == map[];
    assert "a" in t3 && t3["a"].address != "";
  }
}
