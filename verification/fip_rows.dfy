/** How far the (network, address) rows of the index can be trusted after any sequence of updates. */
module FipRows {
  import opened FipIndex
  import FipViews

  datatype Update = Upsert(e: Entry) | Delete(uuid: string) | ReplaceAll(entries: seq<Entry>)

  /** The table and the rows after a sequence of updates from empty. */
  function TableAfter(ops: seq<Update>): Table {
    if ops == [] then map[]
    else
      var t := TableAfter(ops[..|ops| - 1]);
      match ops[|ops| - 1]
      case Upsert(e) => t[e.uuid := e]
      case Delete(uuid) => t - {uuid}
      case ReplaceAll(entries) => TableOf(entries)
  }

  function RowsAfter(ops: seq<Update>): map<string, string> {
    if ops == [] then map[]
    else
      var t, m := TableAfter(ops[..|ops| - 1]), RowsAfter(ops[..|ops| - 1]);
      match ops[|ops| - 1]
      case Upsert(e) => AddrAfterUpsert(t, m, e)
      case Delete(uuid) => AddrAfterDelete(t, m, uuid)
      case ReplaceAll(entries) => AddrOf(entries)
  }

  predicate UpdateOk(op: Update) {
    (op.Upsert? ==> op.e.uuid != "") && (op.ReplaceAll? ==> DistinctUUIDs(op.entries))
  }

  ghost predicate UpdatesOk(ops: seq<Update>) {
    ops == [] || (UpdatesOk(ops[..|ops| - 1]) && UpdateOk(ops[|ops| - 1]))
  }

  ghost predicate Live(t: Table, u: string) {
    u in t && t[u].address != ""
  }

  /** Another live entry has u's (network, address) pair. */
  ghost predicate Shares(t: Table, u: string)
    requires Live(t, u)
  {
    exists v :: v != u && SamePair(t, u, v)
  }

  ghost predicate SamePair(t: Table, u: string, v: string)
    requires Live(t, u)
  {
    Live(t, v) && KeyOf(t[v]) == KeyOf(t[u])
  }

  predicate Reindexes(op: Update, u: string) {
    op.ReplaceAll? || (op.Upsert? && op.e.uuid == u)
  }

  /** At some state since u was last indexed, that one included, another live entry had its pair. */
  ghost predicate SharedSince(ops: seq<Update>, u: string) {
    && Live(TableAfter(ops), u)
    && (Shares(TableAfter(ops), u)
        || (ops != [] && !Reindexes(ops[|ops| - 1], u) && SharedSince(ops[..|ops| - 1], u)))
  }

  ghost predicate NoneShared(ops: seq<Update>) {
    forall u :: !SharedSince(ops, u)
  }

  /** An entry that never shared its pair has its row; one that did, and no longer does, has none. */
  ghost predicate Right(t: Table, m: map<string, string>, u: string, shared: bool)
    requires Live(t, u)
  {
    && (!shared ==> KeyOf(t[u]) in m && m[KeyOf(t[u])] == u)
    && (shared && !Shares(t, u) ==> KeyOf(t[u]) !in m)
  }

  ghost predicate RowRight(ops: seq<Update>, u: string)
    requires Live(TableAfter(ops), u)
  {
    Right(TableAfter(ops), RowsAfter(ops), u, SharedSince(ops, u))
  }

  ghost predicate RowsRight(ops: seq<Update>) {
    && WellKeyed(TableAfter(ops)) && AddrSound(TableAfter(ops), RowsAfter(ops))
    && forall u {:trigger RowRight(ops, u)} :: Live(TableAfter(ops), u) ==> RowRight(ops, u)
  }

  ghost predicate HasRow(t: Table, m: map<string, string>, u: string)
    requires Live(t, u)
  {
    KeyOf(t[u]) in m && m[KeyOf(t[u])] == u
  }

  lemma DropSound(t: Table, m: map<string, string>, w: string)
    requires WellKeyed(t) && AddrSound(t, m)
    ensures WellKeyed(t - {w}) && AddrSound(t - {w}, AddrAfterDelete(t, m, w))
  {}

  lemma AddSound(t: Table, m: map<string, string>, e: Entry)
    requires WellKeyed(t) && AddrSound(t, m) && e.uuid != "" && e.uuid !in t
    ensures WellKeyed(t[e.uuid := e]) && AddrSound(t[e.uuid := e], AddrIndexed(m, e))
  {}

  /** Dropping another entry takes u's row away exactly when that entry had u's pair, and never gives u a row. */
  lemma DropKeepsRow(t: Table, m: map<string, string>, w: string, u: string, shared: bool)
    requires WellKeyed(t) && AddrSound(t, m) && Live(t, u) && u != w
    requires Right(t, m, u, shared) && (Shares(t, u) ==> shared)
    ensures Live(t - {w}, u) && Right(t - {w}, AddrAfterDelete(t, m, w), u, shared) && (Shares(t - {w}, u) ==> shared)
    ensures HasRow(t - {w}, AddrAfterDelete(t, m, w), u) <==> HasRow(t, m, u) && !SamePair(t, u, w)
  {
    var t' := t - {w};
    forall v | v != w ensures SamePair(t, u, v) <==> SamePair(t', u, v) {}
    if Shares(t, u) && !Shares(t', u) {
      var v :| v != u && SamePair(t, u, v);
      assert v == w;
    }
    if Live(t, w) && KeyOf(t[w]) == KeyOf(t[u]) { assert SamePair(t, u, w); }
  }

  /** Adding another entry takes u's row away exactly when that entry has u's pair, and never gives u a row. */
  lemma AddKeepsRow(t: Table, m: map<string, string>, e: Entry, u: string, shared: bool)
    requires Live(t, u) && u != e.uuid && e.uuid !in t && Right(t, m, u, shared) && (Shares(t, u) ==> shared)
    ensures Live(t[e.uuid := e], u) && Right(t[e.uuid := e], AddrIndexed(m, e), u, shared || Shares(t[e.uuid := e], u))
    ensures HasRow(t[e.uuid := e], AddrIndexed(m, e), u) <==> HasRow(t, m, u) && !SamePair(t[e.uuid := e], u, e.uuid)
  {
    var t' := t[e.uuid := e];
    forall v | v != e.uuid ensures SamePair(t, u, v) <==> SamePair(t', u, v) {}
    if Shares(t, u) {
      var v :| v != u && SamePair(t, u, v);
      assert SamePair(t', u, v);
    }
    if !Shares(t', u) { assert !SamePair(t', u, e.uuid); }
  }

  lemma UpsertIsDropAdd(t: Table, e: Entry)
    ensures t[e.uuid := e] == (t - {e.uuid})[e.uuid := e] && e.uuid !in t - {e.uuid}
  {}

  lemma SoundAfter(ops: seq<Update>)
    requires ops != [] && RowsRight(ops[..|ops| - 1]) && UpdateOk(ops[|ops| - 1])
    ensures WellKeyed(TableAfter(ops)) && AddrSound(TableAfter(ops), RowsAfter(ops))
  {
    var t, m := TableAfter(ops[..|ops| - 1]), RowsAfter(ops[..|ops| - 1]);
    match ops[|ops| - 1]
    case Upsert(e) =>
      DropSound(t, m, e.uuid);
      UpsertIsDropAdd(t, e);
      AddSound(t - {e.uuid}, AddrAfterDelete(t, m, e.uuid), e);
    case Delete(uuid) => DropSound(t, m, uuid);
    case ReplaceAll(entries) => ReplaceSound(entries);
  }

  lemma ReplaceSound(entries: seq<Entry>)
    requires DistinctUUIDs(entries)
    ensures WellKeyed(TableOf(entries)) && AddrSound(TableOf(entries), AddrOf(entries))
  {
    TableOfContents(entries);
    FipViews.AddrOfRows(entries);
  }

  /** An update that leaves u alone keeps its row right. */
  lemma UpdateKeepsRow(ops: seq<Update>, u: string)
    requires ops != [] && RowsRight(ops[..|ops| - 1]) && UpdateOk(ops[|ops| - 1])
    requires Live(TableAfter(ops), u) && !Reindexes(ops[|ops| - 1], u)
    ensures RowRight(ops, u)
  {
    var init := ops[..|ops| - 1];
    var t, m := TableAfter(init), RowsAfter(init);
    assert Live(t, u) && RowRight(init, u);
    match ops[|ops| - 1]
    case Upsert(e) =>
      UpsertIsDropAdd(t, e);
      DropKeepsRow(t, m, e.uuid, u, SharedSince(init, u));
      AddKeepsRow(t - {e.uuid}, AddrAfterDelete(t, m, e.uuid), e, u, SharedSince(init, u));
    case Delete(uuid) => DropKeepsRow(t, m, uuid, u, SharedSince(init, u));
  }

  lemma UpsertedRow(ops: seq<Update>)
    requires ops != [] && ops[|ops| - 1].Upsert? && Live(TableAfter(ops), ops[|ops| - 1].e.uuid)
    ensures RowRight(ops, ops[|ops| - 1].e.uuid)
  {}

  lemma ReplacedRow(ops: seq<Update>, u: string)
    requires ops != [] && ops[|ops| - 1].ReplaceAll? && UpdateOk(ops[|ops| - 1]) && Live(TableAfter(ops), u)
    ensures RowRight(ops, u)
  {
    var entries := ops[|ops| - 1].entries;
    TableOfContents(entries);
    FipViews.AddrOfRows(entries);
    var t, m := TableAfter(ops), RowsAfter(ops);
    assert t[u] in entries;
    var e :| e in entries && e.address != "" && KeyOf(e) == KeyOf(t[u]) && m[KeyOf(t[u])] == e.uuid;
    if e.uuid != u { assert SamePair(t, u, e.uuid); }
  }

  lemma {:induction false} RowsAlwaysRight(ops: seq<Update>)
    requires UpdatesOk(ops)
    ensures RowsRight(ops)
  {
    if ops != [] {
      RowsAlwaysRight(ops[..|ops| - 1]);
      SoundAfter(ops);
      forall u | Live(TableAfter(ops), u) ensures RowRight(ops, u) {
        match ops[|ops| - 1]
        case ReplaceAll(_) => ReplacedRow(ops, u);
        case Upsert(e) => if e.uuid == u { UpsertedRow(ops); } else { UpdateKeepsRow(ops, u); }
        case Delete(_) => UpdateKeepsRow(ops, u);
      }
    }
  }

  /**
   The exact condition over whole histories: after any upserts, deletes and replaces, every live entry with an address
   has its row if and only if none of them has shared its pair with another live entry since it was last indexed.
   */
  lemma RowsCompleteExactly(ops: seq<Update>)
    requires UpdatesOk(ops)
    ensures AddrComplete(TableAfter(ops), RowsAfter(ops)) <==> NoneShared(ops)
  {
    RowsAlwaysRight(ops);
    var t, m := TableAfter(ops), RowsAfter(ops);
    forall u | Live(t, u) ensures RowRight(ops, u) {}
    if AddrComplete(t, m) {
      forall u ensures !SharedSince(ops, u) {
        if Live(t, u) {
          assert RowRight(ops, u) && KeyOf(t[u]) in m && m[KeyOf(t[u])] == u;
          forall v | v != u ensures !SamePair(t, u, v) {}
        }
      }
    } else {
      var u :| u in t && t[u].address != "" && !(KeyOf(t[u]) in m && m[KeyOf(t[u])] == u);
      assert Live(t, u) && RowRight(ops, u);
      assert SharedSince(ops, u);
    }
  }

  /** The index itself, driven through a history: its table and rows are the ones above, and so is the condition. */
  method Follow(ops: seq<Update>) returns (idx: Index)
    requires UpdatesOk(ops)
    ensures fresh(idx) && idx.Valid() && idx.byUUID == TableAfter(ops) && idx.byAddr == RowsAfter(ops)
    ensures AddrComplete(idx.byUUID, idx.byAddr) <==> NoneShared(ops)
  {
    idx := new Index();
    for i := 0 to |ops|
      invariant fresh(idx) && idx.Valid() && idx.byUUID == TableAfter(ops[..i]) && idx.byAddr == RowsAfter(ops[..i])
    {
      assert ops[..i + 1][..i] == ops[..i];
      EachUpdateOk(ops, i);
      match ops[i]
      case Upsert(e) => var _ := idx.Upsert(e);
      case Delete(uuid) => var _ := idx.Delete(uuid);
      case ReplaceAll(entries) => var _, _, _ := idx.ReplaceAll(entries);
    }
    assert ops[..|ops|] == ops;
    RowsCompleteExactly(ops);
  }

  lemma {:induction false} EachUpdateOk(ops: seq<Update>, i: nat)
    requires UpdatesOk(ops) && i < |ops|
    ensures UpdateOk(ops[i])
  {
    if i < |ops| - 1 { EachUpdateOk(ops[..|ops| - 1], i); }
  }
}
