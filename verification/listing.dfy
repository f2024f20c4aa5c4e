/** Listing the rows of a uuid-keyed table: filter, then sort. Every in-memory List ends this way. */
module Listing {
  import opened Sorting

  /** Different keys hold different rows: true of every store table, whose rows carry their uuid. */
  ghost predicate RowsDistinct<Row>(rows: map<string, Row>) {
    forall u, v :: u in rows && v in rows && rows[u] == rows[v] ==> u == v
  }

  ghost function Kept<Row(!new)>(rows: map<string, Row>, uuids: set<string>, keep: Row -> bool): set<Row> {
    set u | u in uuids && u in rows && keep(rows[u]) :: rows[u]
  }

  /** out holds exactly the kept rows, each once, in the order le. */
  ghost predicate IsListing<Row(!new)>(rows: map<string, Row>, keep: Row -> bool, le: (Row, Row) -> bool,
    out: seq<Row>) {
    Sorted(out, le) && multiset(out) == multiset(Kept(rows, rows.Keys, keep))
  }

  lemma KeptAdd<Row(!new)>(rows: map<string, Row>, uuids: set<string>, keep: Row -> bool, u: string)
    requires RowsDistinct(rows) && u in rows && u !in uuids
    ensures keep(rows[u]) ==>
      multiset(Kept(rows, uuids + {u}, keep)) == multiset(Kept(rows, uuids, keep)) + multiset{rows[u]}
    ensures !keep(rows[u]) ==> Kept(rows, uuids + {u}, keep) == Kept(rows, uuids, keep)
  {
    if keep(rows[u]) {
      assert Kept(rows, uuids + {u}, keep) == Kept(rows, uuids, keep) + {rows[u]};
      assert rows[u] !in Kept(rows, uuids, keep);
    }
  }

  method FilterSorted<Row(!new)>(rows: map<string, Row>, keep: Row -> bool, le: (Row, Row) -> bool)
    returns (out: seq<Row>)
    requires RowsDistinct(rows) && TotalPreorder(le)
    ensures IsListing(rows, keep, le, out)
  {
    out := [];
    var left := rows.Keys;
    ghost var seen: set<string> := {};
    while left != {}
      invariant left + seen == rows.Keys && left !! seen
      invariant multiset(out) == multiset(Kept(rows, seen, keep))
      decreases left
    {
      var u :| u in left;
      KeptAdd(rows, seen, keep, u);
      if keep(rows[u]) {
        out := out + [rows[u]];
      }
      left, seen := left - {u}, seen + {u};
    }
    assert seen == rows.Keys;
    SortSorted(out, le);
    out := Sort(out, le);
  }

  lemma ListingMembers<Row(!new)>(rows: map<string, Row>, keep: Row -> bool, le: (Row, Row) -> bool, out: seq<Row>)
    requires IsListing(rows, keep, le, out)
    ensures forall r :: r in out <==> exists u :: u in rows && rows[u] == r && keep(r)
  {
    KeptMembers(rows, keep, out);
  }

  lemma KeptMembers<Row(!new)>(rows: map<string, Row>, keep: Row -> bool, out: seq<Row>)
    requires multiset(out) == multiset(Kept(rows, rows.Keys, keep))
    ensures forall r :: r in out <==> exists u :: u in rows && rows[u] == r && keep(r)
  {
    forall r ensures r in out <==> exists u :: u in rows && rows[u] == r && keep(r) {
      assert r in out <==> r in multiset(out);
      assert r in multiset(out) <==> r in Kept(rows, rows.Keys, keep);
    }
  }

  ghost function Image<A(!new), B(!new)>(s: set<A>, f: A -> B): set<B> {
    set a | a in s :: f(a)
  }

  lemma ImageAdd<A(!new), B(!new)>(s: set<A>, f: A -> B, a: A)
    requires a in s && forall x, y :: x in s && y in s && f(x) == f(y) ==> x == y
    ensures multiset(Image(s, f)) == multiset(Image(s - {a}, f)) + multiset{f(a)}
  {
    assert Image(s, f) == Image(s - {a}, f) + {f(a)};
    assert f(a) !in Image(s - {a}, f);
  }

  lemma MultisetRest<A(!new)>(rows: seq<A>, s: set<A>)
    requires rows != [] && multiset(rows) == multiset(s)
    ensures rows[0] in s && multiset(rows[1..]) == multiset(s - {rows[0]})
  {
    var a := rows[0];
    assert rows == [a] + rows[1..];
    assert a in multiset(rows);
    assert multiset(rows[1..]) == multiset(rows) - multiset{a};
    assert a in multiset(s);
    assert multiset(s - {a}) == multiset(s) - multiset{a};
  }

  /** Projecting a listing through an injective function lists the projected set. */
  lemma {:induction false} ProjectedListing<A(!new), B(!new)>(rows: seq<A>, s: set<A>, f: A -> B, out: seq<B>)
    requires multiset(rows) == multiset(s)
    requires forall a, b :: a in s && b in s && f(a) == f(b) ==> a == b
    requires |out| == |rows| && forall i :: 0 <= i < |rows| ==> out[i] == f(rows[i])
    ensures multiset(out) == multiset(Image(s, f))
    decreases |rows|
  {
    if rows == [] {
      assert |multiset(s)| == |s| && |multiset(rows)| == |rows|;
      assert s == {} && Image(s, f) == {};
    } else {
      MultisetRest(rows, s);
      ProjectedListing(rows[1..], s - {rows[0]}, f, out[1..]);
      ImageAdd(s, f, rows[0]);
      assert out == [f(rows[0])] + out[1..];
    }
  }
}
