/**
 When the etcd creates of load balancers race: the name scan and the put are two requests. Exactly which schedules
 stay sequential, and exactly from which states a race is still possible.
 */
module LbRaces {
  import opened EtcdKV
  import opened LbStore
  import opened LbProtocol

  ghost predicate SameName(a: Op, b: Op) {
    a.Create? && b.Create? && a.lb.project == b.lb.project && a.lb.name == b.lb.name
  }

  /** The step is a create's put, and its name is taken. */
  ghost predicate CommitsTakenName(s: System, a: Action) {
    && Steps(s, a) && Decide(s, s.calls[a.id]).Write? && s.calls[a.id].op.Create?
    && NameTaken(Values(s.kvs), s.calls[a.id].op.lb.project, s.calls[a.id].op.lb.name)
  }

  // ---- Whole schedules ----

  ghost predicate NoRace(s: System, acts: seq<Action>) {
    acts == [] || (NoRace(s, acts[..|acts| - 1]) && !CommitsTakenName(Run(s, acts[..|acts| - 1]), acts[|acts| - 1]))
  }

  ghost predicate FullySequential(rows: Rows, history: seq<Event>) {
    forall i :: 0 <= i < |history| ==> SequentialAt(rows, history, i)
  }

  lemma SequentialAppend(rows: Rows, history: seq<Event>, e: Event)
    ensures FullySequential(rows, history + [e]) <==>
      FullySequential(rows, history) && Sequential(Replay(rows, history), e)
  {
    var h := history + [e];
    assert history[..|history|] == history;
    assert forall i :: 0 <= i <= |history| ==> h[..i] == history[..i];
    assert SequentialAt(rows, h, |history|) <==> Sequential(Replay(rows, history), e);
    forall i | 0 <= i < |history| ensures SequentialAt(rows, h, i) <==> SequentialAt(rows, history, i) {
      assert h[..i] == history[..i];
    }
  }

  /** The step records e, which is the sequential store's exactly when no taken name is committed. */
  ghost predicate Records(s: System, a: Action, e: Event) {
    Next(s, a).history == s.history + [e] && (Sequential(Values(s.kvs), e) <==> !CommitsTakenName(s, a))
  }

  /** The event a step records, if any. It is the sequential store's exactly when no taken name is committed. */
  lemma StepEvent(s: System, a: Action)
    requires CallsOk(s) && RowsKeyed(s.kvs)
    ensures
      || (Next(s, a).history == s.history && !CommitsTakenName(s, a))
      || (exists e :: Records(s, a, e))
  {
    if Steps(s, a) {
      var c := s.calls[a.id];
      assert CallOk(s, a.id);
      match Decide(s, c)
      case Say(outcome) =>
        SayEffect(s, a.id, outcome);
        assert Records(s, a, Event(a.id, c.op, outcome));
      case Write(kvs, outcome) =>
        WriteEffect(s, a.id, kvs, outcome);
        WriteIsSequential(s, a);
        assert Records(s, a, Event(a.id, c.op, outcome));
      case _ =>
    }
  }

  lemma WriteIsSequential(s: System, a: Action)
    requires CallsOk(s) && RowsKeyed(s.kvs) && Steps(s, a) && Decide(s, s.calls[a.id]).Write?
    requires
      var e := Event(a.id, s.calls[a.id].op, Decide(s, s.calls[a.id]).outcome);
      Sequential(Values(s.kvs), e) || RacyCreate(Values(s.kvs), e)
    ensures Sequential(Values(s.kvs), Event(a.id, s.calls[a.id].op, Decide(s, s.calls[a.id]).outcome)) <==>
      !CommitsTakenName(s, a)
  {
    assert CallOk(s, a.id);
  }

  /**
   The exact condition on whole schedules: the history is a run of the in-memory store, event by event, if and only if
   no create commits a name that is taken at that moment.
   */
  lemma {:induction false} SequentialExactly(s: System, acts: seq<Action>)
    requires Initial(s)
    ensures FullySequential(Values(s.kvs), Run(s, acts).history) <==> NoRace(s, acts)
  {
    if acts != [] {
      var init, a := acts[..|acts| - 1], acts[|acts| - 1];
      SequentialExactly(s, init);
      RunKeepsCalls(s, init);
      RunRefines(s, init);
      var m := Run(s, init);
      StepEvent(m, a);
      if e :| Records(m, a, e) {
        SequentialAppend(Values(s.kvs), m.history, e);
      }
    }
  }

  // ---- Creates of one name that do not overlap ----

  /** The action starts no Create while another Create of the same project and name is running. */
  ghost predicate NoNameOverlap(s: System, a: Action) {
    a.Invoke? ==> forall i :: i in s.calls && !s.calls[i].pc.Done? ==> !SameName(s.calls[i].op, a.op)
  }

  ghost predicate NamesSerial(s: System, acts: seq<Action>) {
    acts == [] || (NamesSerial(s, acts[..|acts| - 1]) && NoNameOverlap(Run(s, acts[..|acts| - 1]), acts[|acts| - 1]))
  }

  /** Every name a create has scanned is still free. */
  ghost predicate ScannedFree(s: System) {
    forall i {:trigger FreeAtPut(s, i)} :: i in s.calls ==> FreeAtPut(s, i)
  }

  ghost predicate FreeAtPut(s: System, i: nat)
    requires i in s.calls
  {
    s.calls[i].op.Create? && s.calls[i].pc.AtCreate? ==>
      !NameTaken(Values(s.kvs), s.calls[i].op.lb.project, s.calls[i].op.lb.name)
  }

  /** Two different running creates of one name. */
  ghost predicate Pair(s: System, i: nat, j: nat) {
    && i in s.calls && j in s.calls && i != j && SameName(s.calls[i].op, s.calls[j].op)
    && !s.calls[i].pc.Done? && !s.calls[j].pc.Done?
  }

  /** A step that commits a scanned name under another call's feet commits a name both calls create. */
  lemma StepKeepsScanned(s: System, a: Action)
    requires CallsOk(s) && ScannedFree(s) && !a.Invoke?
    requires forall i, j :: Pair(s, i, j) ==> NameTaken(Values(s.kvs), s.calls[i].op.lb.project, s.calls[i].op.lb.name)
    ensures ScannedFree(Next(s, a)) && !CommitsTakenName(s, a)
  {
    var s' := Next(s, a);
    if Steps(s, a) { assert CallOk(s, a.id) && FreeAtPut(s, a.id); }
    forall i | i in s'.calls ensures FreeAtPut(s', i) {
      assert FreeAtPut(s, i) && CallOk(s, i);
      if s'.calls[i].op.Create? && s'.calls[i].pc.AtCreate? { ScannedStaysFree(s, a, i); }
    }
  }

  lemma ScannedStaysFree(s: System, a: Action, i: nat)
    requires CallsOk(s) && ScannedFree(s) && !a.Invoke? && i in s.calls && s.calls[i].op.Create? &&
      Next(s, a).calls[i].pc.AtCreate?
    requires forall i, j :: Pair(s, i, j) ==> NameTaken(Values(s.kvs), s.calls[i].op.lb.project, s.calls[i].op.lb.name)
    ensures !NameTaken(Values(Next(s, a).kvs), s.calls[i].op.lb.project, s.calls[i].op.lb.name)
  {
    assert CallOk(s, i) && FreeAtPut(s, i);
    var lb := s.calls[i].op.lb;
    assert !NameTaken(Values(s.kvs), lb.project, lb.name);
    if Steps(s, a) {
      OthersTakeNoName(s, a.id, a.Advance?, i);
    } else {
      assert Next(s, a).kvs == s.kvs;
    }
  }

  lemma OthersTakeNoName(s: System, id: nat, heard: bool, i: nat)
    requires CallsOk(s) && id in s.calls && i in s.calls && s.calls[i].op.Create? &&
      AdvanceCall(s, id, heard).calls[i].pc.AtCreate?
    requires forall i, j :: Pair(s, i, j) ==> NameTaken(Values(s.kvs), s.calls[i].op.lb.project, s.calls[i].op.lb.name)
    requires !NameTaken(Values(s.kvs), s.calls[i].op.lb.project, s.calls[i].op.lb.name)
    ensures !NameTaken(Values(AdvanceCall(s, id, heard).kvs), s.calls[i].op.lb.project, s.calls[i].op.lb.name)
  {
    var lb := s.calls[i].op.lb;
    assert !Pair(s, i, id);
    if NameTaken(Values(AdvanceCall(s, id, heard).kvs), lb.project, lb.name) {
      TakesOwnName(s, id, heard, lb.project, lb.name);
      assert false;
    }
  }

  /** After a step, every stored row has the name it had, or is the row a create just committed. */
  lemma RowNames(s: System, id: nat, heard: bool, u: string)
    requires CallsOk(s) && id in s.calls && u in AdvanceCall(s, id, heard).kvs
    ensures
      var l := AdvanceCall(s, id, heard).kvs[u].value;
      || (u in s.kvs && s.kvs[u].value.project == l.project && s.kvs[u].value.name == l.name)
      || (s.calls[id].op.Create? && s.calls[id].pc.AtCreate? && l == s.calls[id].op.lb)
  {
    assert CallOk(s, id);
  }

  /** A step takes no name except, when a create commits, that create's own. */
  lemma TakesOwnName(s: System, id: nat, heard: bool, project: string, name: string)
    requires CallsOk(s) && id in s.calls && !NameTaken(Values(s.kvs), project, name)
    requires NameTaken(Values(AdvanceCall(s, id, heard).kvs), project, name)
    ensures s.calls[id].op.Create? && s.calls[id].pc.AtCreate? && s.calls[id].op.lb.project == project &&
      s.calls[id].op.lb.name == name
    ensures AdvanceCall(s, id, heard).calls[id].pc.Done?
  {
    var kvs' := AdvanceCall(s, id, heard).kvs;
    var u :| u in Values(kvs') && Values(kvs')[u].project == project && Values(kvs')[u].name == name;
    RowNames(s, id, heard, u);
    assert u in s.kvs ==> u in Values(s.kvs) && !(Values(s.kvs)[u].project == project && Values(s.kvs)[u].name == name);
    assert CallOk(s, id);
  }

  /** A step starts no call, so a pair after it was a pair before it. */
  lemma PairWasThere(s: System, a: Action, i: nat, j: nat)
    requires !a.Invoke? && Pair(Next(s, a), i, j)
    ensures Pair(s, i, j) && Next(s, a).calls[i].op == s.calls[i].op
  {
    assert forall k :: k in Next(s, a).calls ==> CallWasThere(s, a, k);
    assert CallWasThere(s, a, i) && CallWasThere(s, a, j);
  }

  ghost predicate CallWasThere(s: System, a: Action, k: nat)
    requires k in Next(s, a).calls
  {
    k in s.calls && Next(s, a).calls[k].op == s.calls[k].op && (s.calls[k].pc.Done? ==> Next(s, a).calls[k].pc.Done?)
  }

  lemma NoPairsKept(s: System, a: Action)
    requires CallsOk(s) && ScannedFree(s) && NoNameOverlap(s, a) && forall i, j :: !Pair(s, i, j)
    ensures ScannedFree(Next(s, a)) && !CommitsTakenName(s, a) && forall i, j :: !Pair(Next(s, a), i, j)
  {
    if a.Invoke? {
      InvokedAlone(s, a);
    } else {
      StepKeepsScanned(s, a);
      forall i, j ensures !Pair(Next(s, a), i, j) {
        if Pair(Next(s, a), i, j) { PairWasThere(s, a, i, j); }
      }
    }
  }

  lemma InvokedAlone(s: System, a: Action)
    requires ScannedFree(s) && a.Invoke? && NoNameOverlap(s, a) && forall i, j :: !Pair(s, i, j)
    ensures ScannedFree(Next(s, a)) && forall i, j :: !Pair(Next(s, a), i, j)
  {
    var s' := Next(s, a);
    forall i | i in s'.calls ensures FreeAtPut(s', i) { if i in s.calls { assert FreeAtPut(s, i); } }
    forall i, j ensures !Pair(s', i, j) {
      if i in s.calls && j in s.calls { assert !Pair(s, i, j); }
    }
  }

  /** While creates of one name do not overlap, no create ever commits a taken name, so the history is sequential. */
  lemma {:induction false} SerialNamesGiveSequentialHistory(s: System, acts: seq<Action>)
    requires Initial(s) && NamesSerial(s, acts)
    ensures ScannedFree(Run(s, acts)) && forall i, j :: !Pair(Run(s, acts), i, j)
    ensures NoRace(s, acts) && FullySequential(Values(s.kvs), Run(s, acts).history)
  {
    if acts != [] {
      var init, a := acts[..|acts| - 1], acts[|acts| - 1];
      SerialNamesGiveSequentialHistory(s, init);
      RunKeepsCalls(s, init);
      NoPairsKept(Run(s, init), a);
    }
    SequentialExactly(s, acts);
  }

  // ---- From which states a race is still possible ----

  ghost predicate Holds(s: System, u: string, project: string, name: string) {
    u in s.kvs && s.kvs[u].value.project == project && s.kvs[u].value.name == name
  }

  ghost function Holders(s: System, project: string, name: string): set<string> {
    set u | u in s.kvs && s.kvs[u].value.project == project && s.kvs[u].value.name == name
  }

  ghost predicate BeingDeleted(s: System, u: string) {
    exists d :: d in s.calls && s.calls[d].op == Delete(u) && !s.calls[d].pc.Done?
  }

  /** The name is free, or every row that holds it is being deleted. */
  ghost predicate Freeable(s: System, project: string, name: string) {
    forall u :: Holds(s, u, project, name) ==> BeingDeleted(s, u)
  }

  ghost predicate CurrentCalls(acts: seq<Action>) {
    forall k :: 0 <= k < |acts| ==> !acts[k].Invoke?
  }

  ghost predicate RacesIn(s: System, acts: seq<Action>) {
    exists k :: 0 <= k < |acts| && RaceAt(s, acts, k)
  }

  ghost predicate RaceAt(s: System, acts: seq<Action>, k: nat)
    requires k < |acts|
  {
    CommitsTakenName(Run(s, acts[..k]), acts[k])
  }

  /** Some continuation of the calls now running, with no new one, commits a create under a taken name. */
  ghost predicate CanRace(s: System) {
    exists acts :: CurrentCalls(acts) && RacesIn(s, acts)
  }

  /** Two running creates of one name that is free or can be freed, or a create about to commit a taken name. */
  ghost predicate RaceWindow(s: System) {
    || (exists i, j :: Pair(s, i, j) && Freeable(s, s.calls[i].op.lb.project, s.calls[i].op.lb.name))
    || !ScannedFree(s)
  }

  lemma {:induction false} RunCons(s: System, a: Action, acts: seq<Action>)
    ensures Run(s, [a] + acts) == Run(Next(s, a), acts)
  {
    var all := [a] + acts;
    if acts == [] {
      assert all[..0] == [];
    } else {
      assert all[..|all| - 1] == [a] + acts[..|acts| - 1];
      RunCons(s, a, acts[..|acts| - 1]);
    }
  }

  lemma RaceShifts(s: System, a: Action, acts: seq<Action>, k: nat)
    requires k < |acts| && RaceAt(Next(s, a), acts, k)
    ensures RaceAt(s, [a] + acts, k + 1)
  {
    var all := [a] + acts;
    assert all[..k + 1] == [a] + acts[..k];
    RunCons(s, a, acts[..k]);
    assert Run(s, all[..k + 1]) == Run(Next(s, a), acts[..k]) && all[k + 1] == acts[k];
  }

  lemma RaceLater(s: System, a: Action)
    requires !a.Invoke? && CanRace(Next(s, a))
    ensures CanRace(s)
  {
    var acts :| CurrentCalls(acts) && RacesIn(Next(s, a), acts);
    RacesShift(s, a, acts);
    CurrentCons(a, acts);
  }

  lemma CurrentCons(a: Action, acts: seq<Action>)
    requires !a.Invoke? && CurrentCalls(acts)
    ensures CurrentCalls([a] + acts)
  {}

  lemma RacesShift(s: System, a: Action, acts: seq<Action>)
    requires RacesIn(Next(s, a), acts)
    ensures RacesIn(s, [a] + acts)
  {
    var k :| 0 <= k < |acts| && RaceAt(Next(s, a), acts, k);
    RaceShifts(s, a, acts, k);
  }

  lemma RaceNow(s: System, a: Action)
    requires CommitsTakenName(s, a)
    ensures CanRace(s)
  {
    assert [a][..0] == [] && [a][0] == a;
    assert Run(s, [a][..0]) == s;
    assert RaceAt(s, [a], 0);
    assert RacesIn(s, [a]) && CurrentCalls([a]);
  }

  // ---- The window is enough ----

  /** Both calls stand at their put, for a free name: the first commit makes the second one a race. */
  lemma BothAtPut(s: System, i: nat, j: nat)
    requires CallsOk(s) && Pair(s, i, j) && s.calls[i].pc.AtCreate? && s.calls[j].pc.AtCreate?
    ensures CommitsTakenName(Next(s, Advance(i)), Advance(j))
  {
    assert CallOk(s, i) && CallOk(s, j);
    var lb, s1 := s.calls[i].op.lb, Next(s, Advance(i));
    assert s1.kvs == Put(s.kvs, lb.uuid, lb, s.rev + 1) && s1.calls[j].pc == s.calls[j].pc;
    assert Values(s1.kvs)[lb.uuid] == lb;
  }

  /** A running delete of a holder runs: the holder is gone, the pair stands, the others are still being deleted. */
  lemma DeleteHolder(s: System, i: nat, j: nat, u: string, d: nat)
    requires CallsOk(s) && Pair(s, i, j) && Holds(s, u, s.calls[i].op.lb.project, s.calls[i].op.lb.name)
    requires Freeable(s, s.calls[i].op.lb.project, s.calls[i].op.lb.name)
    requires d in s.calls && s.calls[d].op == Delete(u) && !s.calls[d].pc.Done?
    ensures
      var s1, lb := Next(s, Advance(d)), s.calls[i].op.lb;
      && CallsOk(s1) && Pair(s1, i, j) && s1.calls[i].op == s.calls[i].op && Freeable(s1, lb.project, lb.name)
      && Holders(s1, lb.project, lb.name) == Holders(s, lb.project, lb.name) - {u}
  {
    assert CallOk(s, d);
    NextKeepsCalls(s, Advance(d));
    var s1, lb := Next(s, Advance(d)), s.calls[i].op.lb;
    assert s1.kvs == s.kvs - {u};
    assert forall k :: k in s.calls && k != d ==> s1.calls[k].op == s.calls[k].op && s1.calls[k].pc == s.calls[k].pc;
    forall v | Holds(s1, v, lb.project, lb.name) ensures BeingDeleted(s1, v) {
      assert Holds(s, v, lb.project, lb.name) && v != u;
      var e :| e in s.calls && s.calls[e].op == Delete(v) && !s.calls[e].pc.Done?;
      assert e != d;
    }
  }

  /** A call that scans while the name is free gets to its put. */
  lemma ScanPasses(s: System, i: nat)
    requires CallsOk(s) && i in s.calls && s.calls[i].pc.AtScan? && s.calls[i].op.Create?
    requires Holders(s, s.calls[i].op.lb.project, s.calls[i].op.lb.name) == {}
    ensures Next(s, Advance(i)) == Move(s, i, AtCreate) && CallsOk(Move(s, i, AtCreate))
  {
    var lb := s.calls[i].op.lb;
    forall u | u in Values(s.kvs)
      ensures !(Values(s.kvs)[u].project == lb.project && Values(s.kvs)[u].name == lb.name) {
      assert u !in Holders(s, lb.project, lb.name);
    }
    NextKeepsCalls(s, Advance(i));
  }

  function ScansLeft(s: System, i: nat, j: nat): nat
    requires i in s.calls && j in s.calls
  {
    (if s.calls[i].pc.AtScan? then 1 else 0) + (if s.calls[j].pc.AtScan? then 1 else 0)
  }

  lemma {:induction false} PairCanRace(s: System, i: nat, j: nat)
    requires CallsOk(s) && Pair(s, i, j) && Freeable(s, s.calls[i].op.lb.project, s.calls[i].op.lb.name)
    ensures CanRace(s)
    decreases |Holders(s, s.calls[i].op.lb.project, s.calls[i].op.lb.name)|, ScansLeft(s, i, j)
  {
    var lb := s.calls[i].op.lb;
    assert CallOk(s, i) && CallOk(s, j);
    if Holders(s, lb.project, lb.name) != {} {
      var u :| u in Holders(s, lb.project, lb.name);
      assert Holds(s, u, lb.project, lb.name);
      var d :| d in s.calls && s.calls[d].op == Delete(u) && !s.calls[d].pc.Done?;
      DeleteHolder(s, i, j, u, d);
      PairCanRace(Next(s, Advance(d)), i, j);
      RaceLater(s, Advance(d));
    } else if s.calls[i].pc.AtScan? {
      ScanPasses(s, i);
      ScanStep(s, i, i, j);
      PairCanRace(Next(s, Advance(i)), i, j);
      RaceLater(s, Advance(i));
    } else if s.calls[j].pc.AtScan? {
      ScanPasses(s, j);
      ScanStep(s, j, i, j);
      PairCanRace(Next(s, Advance(j)), i, j);
      RaceLater(s, Advance(j));
    } else {
      BothAtPut(s, i, j);
      RaceNow(Next(s, Advance(i)), Advance(j));
      RaceLater(s, Advance(i));
    }
  }

  lemma ScanStep(s: System, k: nat, i: nat, j: nat)
    requires Pair(s, i, j) && (k == i || k == j) && s.calls[k].pc.AtScan?
    requires Freeable(s, s.calls[i].op.lb.project, s.calls[i].op.lb.name)
    ensures
      var s1, lb := Move(s, k, AtCreate), s.calls[i].op.lb;
      && Pair(s1, i, j) && s1.calls[i].op == s.calls[i].op && Freeable(s1, lb.project, lb.name)
      && Holders(s1, lb.project, lb.name) == Holders(s, lb.project, lb.name) && ScansLeft(s1, i, j) < ScansLeft(s, i, j)
  {
    var s1, lb := Move(s, k, AtCreate), s.calls[i].op.lb;
    forall v | Holds(s1, v, lb.project, lb.name) ensures BeingDeleted(s1, v) {
      assert Holds(s, v, lb.project, lb.name);
      var e :| e in s.calls && s.calls[e].op == Delete(v) && !s.calls[e].pc.Done?;
      assert s1.calls[e] == s.calls[e];
    }
  }

  // ---- The window is needed ----

  /** Outside the window every name two running creates share is held by a row nobody is deleting. */
  lemma StepKeepsWindowShut(s: System, a: Action)
    requires CallsOk(s) && !RaceWindow(s) && !a.Invoke?
    ensures !RaceWindow(Next(s, a)) && !CommitsTakenName(s, a)
  {
    var s' := Next(s, a);
    forall i, j | Pair(s, i, j) ensures NameTaken(Values(s.kvs), s.calls[i].op.lb.project, s.calls[i].op.lb.name) {
      var u :| Holds(s, u, s.calls[i].op.lb.project, s.calls[i].op.lb.name) && !BeingDeleted(s, u);
      assert u in Values(s.kvs);
    }
    StepKeepsScanned(s, a);
    forall i, j | Pair(s', i, j) ensures !Freeable(s', s'.calls[i].op.lb.project, s'.calls[i].op.lb.name) {
      PairWasThere(s, a, i, j);
      var u :| Holds(s, u, s.calls[i].op.lb.project, s.calls[i].op.lb.name) && !BeingDeleted(s, u);
      HolderStays(s, a, u, s.calls[i].op.lb.project, s.calls[i].op.lb.name);
    }
  }

  lemma HolderStays(s: System, a: Action, u: string, project: string, name: string)
    requires CallsOk(s) && !a.Invoke? && Holds(s, u, project, name) && !BeingDeleted(s, u)
    ensures Holds(Next(s, a), u, project, name) && !BeingDeleted(Next(s, a), u)
  {
    if Steps(s, a) { StepKeepsHolder(s, a.id, a.Advance?, u, project, name); }
    forall d | d in Next(s, a).calls ensures CallWasThere(s, a, d) {}
  }

  lemma StepKeepsHolder(s: System, id: nat, heard: bool, u: string, project: string, name: string)
    requires CallsOk(s) && id in s.calls && Holds(s, u, project, name) && !BeingDeleted(s, u)
    ensures Holds(AdvanceCall(s, id, heard), u, project, name)
  {
    assert CallOk(s, id);
  }

  lemma {:induction false} RunKeepsWindowShut(s: System, acts: seq<Action>)
    requires CallsOk(s) && !RaceWindow(s) && CurrentCalls(acts)
    ensures CallsOk(Run(s, acts)) && !RaceWindow(Run(s, acts))
  {
    if acts != [] {
      var init, a := acts[..|acts| - 1], acts[|acts| - 1];
      RunKeepsWindowShut(s, init);
      NextKeepsCalls(Run(s, init), a);
      StepKeepsWindowShut(Run(s, init), a);
    }
  }

  /**
   The exact condition on states, for every reachable one: the calls now running can still end in a race if and only if
   two of them create one name that is free or can be freed by a running delete, wherever between scan and put they
   stand, or a create past its scan has already lost its name.
   */
  lemma RaceExactly(s: System)
    requires CallsOk(s)
    ensures CanRace(s) <==> RaceWindow(s)
  {
    if RaceWindow(s) {
      if !ScannedFree(s) {
        var i :| i in s.calls && !FreeAtPut(s, i);
        assert CallOk(s, i);
        RaceNow(s, Advance(i));
      } else {
        var i, j :| Pair(s, i, j) && Freeable(s, s.calls[i].op.lb.project, s.calls[i].op.lb.name);
        PairCanRace(s, i, j);
      }
    }
    if CanRace(s) && !RaceWindow(s) {
      var acts :| CurrentCalls(acts) && RacesIn(s, acts);
      var k :| 0 <= k < |acts| && RaceAt(s, acts, k);
      RunKeepsWindowShut(s, acts[..k]);
      StepKeepsWindowShut(Run(s, acts[..k]), acts[k]);
      assert false;
    }
  }
}
