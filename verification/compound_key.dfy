/** The (project, name) key under which the in-memory stores index their rows. */
module CompoundKey {

  function Key(project: string, name: string): string {
    project + "|" + name
  }

  ghost predicate BarFree(s: string) {
    '|' !in s
  }

  /** The compound key separates project from name when projects hold no bar. */
  lemma KeyInjective(p1: string, n1: string, p2: string, n2: string)
    requires BarFree(p1) && BarFree(p2) && Key(p1, n1) == Key(p2, n2)
    ensures p1 == p2 && n1 == n2
  {
    var k := Key(p1, n1);
    assert k[|p1|] == '|' && k[|p2|] == '|';
    if |p1| != |p2| {
      assert false;
    }
    assert p1 == k[..|p1|] == p2;
    assert n1 == k[|p1| + 1..] == n2;
  }

  /** p1 is p2, a bar and m; the names make up for it. */
  ghost predicate Shifted(p1: string, n1: string, p2: string, n2: string, m: string) {
    p1 == p2 + "|" + m && n2 == m + "|" + n1
  }

  /**
   Exactly when two keys meet: the pairs are the same, or one project is the other with a bar and more, and the names
   are shifted by as much.
   */
  lemma KeysMeetExactly(p1: string, n1: string, p2: string, n2: string)
    ensures Key(p1, n1) == Key(p2, n2) <==>
      (p1 == p2 && n1 == n2) || (exists m :: Shifted(p1, n1, p2, n2, m)) || (exists m :: Shifted(p2, n2, p1, n1, m))
  {
    if Key(p1, n1) == Key(p2, n2) {
      if |p1| >= |p2| { LongerProject(p1, n1, p2, n2); } else { LongerProject(p2, n2, p1, n1); }
    }
    if m :| Shifted(p1, n1, p2, n2, m) { ShiftMeets(p1, n1, p2, n2, m); }
    if m :| Shifted(p2, n2, p1, n1, m) { ShiftMeets(p2, n2, p1, n1, m); }
  }

  lemma LongerProject(p1: string, n1: string, p2: string, n2: string)
    requires Key(p1, n1) == Key(p2, n2) && |p1| >= |p2|
    ensures (p1 == p2 && n1 == n2) || exists m :: Shifted(p1, n1, p2, n2, m)
  {
    var k := Key(p1, n1);
    assert p1 == k[..|p1|] && p2 == k[..|p2|];
    assert n1 == k[|p1| + 1..] && n2 == k[|p2| + 1..];
    if |p1| > |p2| {
      var m := p1[|p2| + 1..];
      assert p1[|p2|] == k[|p2|] == '|';
      assert p1 == p2 + "|" + m;
      assert k[|p1|] == '|';
      assert n2 == m + "|" + n1;
      assert Shifted(p1, n1, p2, n2, m);
    }
  }

  lemma ShiftMeets(p1: string, n1: string, p2: string, n2: string, m: string)
    requires Shifted(p1, n1, p2, n2, m)
    ensures Key(p1, n1) == Key(p2, n2)
  {}
}
