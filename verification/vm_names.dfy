/** The names of a router's micro-VMs. */
module VmNames {
  import opened Text

  const MAX_REPLICAS := 10

  function VmBareName(uuid: string): string {
    "weft-router-" + uuid
  }

  function IndexedName(uuid: string, k: nat): string {
    VmBareName(uuid) + "-" + Decimal(k)
  }

  /** The names of replicas 1 to n. */
  function ReplicaNameSeq(uuid: string, n: nat): seq<string> {
    seq(n, i requires 0 <= i < n => IndexedName(uuid, i + 1))
  }

  method ReplicaNames(uuid: string, n: nat) returns (out: seq<string>)
    ensures out == ReplicaNameSeq(uuid, n)
  {
    out := [];
    for i := 0 to n
      invariant out == ReplicaNameSeq(uuid, n)[..i]
    {
      out := out + [IndexedName(uuid, i + 1)];
    }
  }

  /** One replica keeps the bare name; more get indexed names, at most ten. */
  function VmNamesFor(uuid: string, replicas: int): seq<string> {
    if replicas <= 1 then [VmBareName(uuid)]
    else ReplicaNameSeq(uuid, if replicas > MAX_REPLICAS then MAX_REPLICAS else replicas)
  }

  /** Every name a router can ever have: what Destroy probes. */
  function ProbedNames(uuid: string): seq<string> {
    [VmBareName(uuid)] + ReplicaNameSeq(uuid, MAX_REPLICAS)
  }

  /** Destroy probes every name Ensure can have used, for any replica count. */
  lemma ProbeCoversEnsure(uuid: string, replicas: int)
    ensures forall name :: name in VmNamesFor(uuid, replicas) ==> name in ProbedNames(uuid)
  {
    var probed := ReplicaNameSeq(uuid, MAX_REPLICAS);
    forall name | name in VmNamesFor(uuid, replicas) ensures name in ProbedNames(uuid) {
      if replicas > 1 {
        var i :| 0 <= i < |VmNamesFor(uuid, replicas)| && VmNamesFor(uuid, replicas)[i] == name;
        assert probed[i] == name;
      }
    }
  }

  /** The VM names a router with so many replicas is to have: the bare one, or one per replica up to ten. */
  ghost predicate Wanted(uuid: string, replicas: int, name: string) {
    if replicas <= 1 then name == "weft-router-" + uuid
    else exists k :: 1 <= k <= replicas && k <= 10 && WantedAt(uuid, k, name)
  }

  ghost predicate WantedAt(uuid: string, k: nat, name: string) {
    name == "weft-router-" + uuid + "-" + Decimal(k)
  }

  /** Those are exactly the names it gets, each of them once. */
  lemma NamesAreWanted(uuid: string, replicas: int)
    ensures forall name :: name in VmNamesFor(uuid, replicas) <==> Wanted(uuid, replicas, name)
    ensures |VmNamesFor(uuid, replicas)| == if replicas <= 1 then 1 else if replicas <= 10 then replicas else 10
    ensures forall i, j :: 0 <= i < j < |VmNamesFor(uuid, replicas)| ==>
      VmNamesFor(uuid, replicas)[i] != VmNamesFor(uuid, replicas)[j]
  {
    var names := VmNamesFor(uuid, replicas);
    if replicas > 1 {
      forall i | 0 <= i < |names| ensures names[i] == IndexedName(uuid, i + 1) {}
      forall name ensures name in names <==> Wanted(uuid, replicas, name) {
        if name in names {
          var i :| 0 <= i < |names| && names[i] == name;
          assert WantedAt(uuid, i + 1, name);
        }
        if k :| 1 <= k <= replicas && k <= 10 && WantedAt(uuid, k, name) {
          assert names[k - 1] == name;
        }
      }
      forall i, j | 0 <= i < j < |names| ensures names[i] != names[j] {
        if names[i] == names[j] { IndexedNamesMeet(uuid, i + 1, uuid, j + 1); }
      }
    }
  }

  lemma ProbedForms(uuid: string, name: string)
    ensures name in ProbedNames(uuid) <==>
      name == VmBareName(uuid) || exists k :: 1 <= k <= MAX_REPLICAS && name == IndexedName(uuid, k)
  {
    var probed := ReplicaNameSeq(uuid, MAX_REPLICAS);
    if k :| 1 <= k <= MAX_REPLICAS && name == IndexedName(uuid, k) {
      assert probed[k - 1] == name;
    }
    if name in ProbedNames(uuid) && name != VmBareName(uuid) {
      assert name in probed;
      var i :| 0 <= i < |probed| && probed[i] == name;
      assert name == IndexedName(uuid, i + 1);
    }
  }

  lemma BareNameInjective(u: string, v: string)
    requires VmBareName(u) == VmBareName(v)
    ensures u == v
  {
    var p := |"weft-router-"|;
    assert u == VmBareName(u)[p..] && v == VmBareName(v)[p..];
  }

  lemma IndexedIsBare(u: string, k: nat)
    ensures IndexedName(u, k) == VmBareName(u + "-" + Decimal(k))
  {}

  lemma DecimalDigits(k: nat)
    requires 1 <= k <= MAX_REPLICAS
    ensures k < 10 ==> Decimal(k) == [DIGITS[k]]
    ensures k == 10 ==> Decimal(k) == "10"
  {
    if k == 10 { assert Decimal(10) == Decimal(1) + [DIGITS[0]]; }
  }

  /** Equal indexed names have equal index: "-1" and "-10" never meet on one another's router. */
  lemma IndexedNamesMeet(u: string, j: nat, v: string, k: nat)
    requires 1 <= j <= MAX_REPLICAS && 1 <= k <= MAX_REPLICAS && IndexedName(u, j) == IndexedName(v, k)
    ensures u == v && j == k
  {
    DecimalDigits(j);
    DecimalDigits(k);
    var s := IndexedName(u, j);
    assert s[|s| - 1] == Decimal(j)[|Decimal(j)| - 1] == Decimal(k)[|Decimal(k)| - 1];
    assert j == k;
    var n := |Decimal(j)| + 1;
    assert VmBareName(u) == s[..|s| - n] && VmBareName(v) == s[..|s| - n];
    BareNameInjective(u, v);
  }

  /** v is u with a replica suffix. */
  ghost predicate IsSuffixed(u: string, v: string) {
    exists k :: 1 <= k <= MAX_REPLICAS && v == u + "-" + Decimal(k)
  }

  /**
   Two routers share a VM name if and only if they are the same router or one uuid is the other with a replica
   suffix. Uuids of one length, such as the 32-digit ones the server draws, therefore never clash.
   */
  lemma SharedNames(u: string, v: string)
    ensures (exists name :: name in ProbedNames(u) && name in ProbedNames(v)) <==>
      u == v || IsSuffixed(u, v) || IsSuffixed(v, u)
    ensures |u| == |v| && u != v ==> forall name :: !(name in ProbedNames(u) && name in ProbedNames(v))
  {
    forall name | name in ProbedNames(u) && name in ProbedNames(v)
      ensures u == v || IsSuffixed(u, v) || IsSuffixed(v, u) {
      SharedNameShape(u, v, name);
    }
    if u == v {
      assert VmBareName(u) in ProbedNames(u);
    }
    if IsSuffixed(u, v) { SuffixedShares(u, v); }
    if IsSuffixed(v, u) { SuffixedShares(v, u); }
  }

  lemma SuffixedShares(u: string, v: string)
    requires IsSuffixed(u, v)
    ensures VmBareName(v) in ProbedNames(u) && VmBareName(v) in ProbedNames(v)
  {
    var k :| 1 <= k <= MAX_REPLICAS && v == u + "-" + Decimal(k);
    IndexedIsBare(u, k);
    ProbedForms(u, VmBareName(v));
  }

  lemma SharedNameShape(u: string, v: string, name: string)
    requires name in ProbedNames(u) && name in ProbedNames(v)
    ensures u == v || IsSuffixed(u, v) || IsSuffixed(v, u)
  {
    ProbedForms(u, name);
    ProbedForms(v, name);
    if name == VmBareName(u) && name == VmBareName(v) {
      BareNameInjective(u, v);
    } else if name == VmBareName(u) {
      var k :| 1 <= k <= MAX_REPLICAS && name == IndexedName(v, k);
      IndexedIsBare(v, k);
      BareNameInjective(u, v + "-" + Decimal(k));
    } else if name == VmBareName(v) {
      var k :| 1 <= k <= MAX_REPLICAS && name == IndexedName(u, k);
      IndexedIsBare(u, k);
      BareNameInjective(v, u + "-" + Decimal(k));
    } else {
      var j :| 1 <= j <= MAX_REPLICAS && name == IndexedName(u, j);
      var k :| 1 <= k <= MAX_REPLICAS && name == IndexedName(v, k);
      IndexedNamesMeet(u, j, v, k);
    }
  }
}
