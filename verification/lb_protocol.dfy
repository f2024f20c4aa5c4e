/**
 The etcd load balancer store as a step machine. Each call is a program counter plus what it last read; any
 number of calls interleave, one etcd request at a time. The properties hold for every schedule.
 */
module LbProtocol {
  import opened EtcdKV
  import opened LbStore
  import opened Sets

  const MAX_ATTEMPTS := 3

  datatype PC =
    | AtGet(attempt: nat)
    | AtTxn(attempt: nat, lb: LoadBalancer, modRev: nat)
    | AtScan
    | AtCreate
    | AtDelete
    | Done(outcome: Outcome)

  /**
   rivals: the other calls that wrote this call's key while it was running. heard: false when the call's write took
   effect but the reply was lost, so that the caller saw an error.
   */
  datatype Call = Call(op: Op, pc: PC, rivals: set<nat>, heard: bool)

  datatype Event = Event(id: nat, op: Op, outcome: Outcome)

  /** The store, every call ever made, and the calls that took effect in the order they did. */
  datatype System = System(rev: nat, kvs: Keyspace<LoadBalancer>, calls: map<nat, Call>, history: seq<Event>)

  /** Abort: the next request fails before taking effect. LoseReply: it takes effect and its reply is lost. */
  datatype Action = Invoke(id: nat, op: Op) | Advance(id: nat) | Abort(id: nat) | LoseReply(id: nat)

  function Target(op: Op): string {
    match op
    case SetBackends(uuid, _) => uuid
    case Create(lb) => lb.uuid
    case Delete(uuid) => uuid
  }

  function Start(op: Op): PC {
    match op
    case SetBackends(_, _) => AtGet(0)
    case Create(_) => AtScan
    case Delete(_) => AtDelete
  }

  /** New rows get fresh uuids. */
  ghost predicate FreshFor(s: System, op: Op) {
    op.Create? ==> op.lb.uuid !in s.kvs && forall i :: i in s.calls && s.calls[i].op.Create? ==>
      s.calls[i].op.lb.uuid != op.lb.uuid
  }

  // ---- Steps ----

  function Move(s: System, id: nat, pc: PC): System
    requires id in s.calls
  {
    s.(calls := s.calls[id := s.calls[id].(pc := pc)])
  }

  /** The call answers without writing, and the answer reflects the store at this moment. */
  function Answer(s: System, id: nat, outcome: Outcome): System
    requires id in s.calls
  {
    Move(s, id, Done(outcome)).(history := s.history + [Event(id, s.calls[id].op, outcome)])
  }

  /** The call writes its key: every other running call on that key has met a rival. */
  function Commit(s: System, id: nat, kvs: Keyspace<LoadBalancer>, outcome: Outcome, heard: bool): System
    requires id in s.calls
  {
    var me := s.calls[id];
    System(s.rev + 1, kvs,
           map i | i in s.calls ::
             if i == id then me.(pc := Done(outcome), heard := heard)
             else if Target(s.calls[i].op) == Target(me.op) && !s.calls[i].pc.Done? then
               s.calls[i].(rivals := s.calls[i].rivals + {id})
             else s.calls[i],
           s.history + [Event(id, me.op, outcome)])
  }

  /** What one etcd request leads to: keep going, answer without writing, or write. */
  datatype Reply = Stay | Goto(pc: PC) | Say(outcome: Outcome) | Write(kvs: Keyspace<LoadBalancer>, outcome: Outcome)

  ghost function Decide(s: System, c: Call): Reply {
    var k := Target(c.op);
    match c.pc
    case AtGet(attempt) =>
      if k !in s.kvs then Say(NotFound)
      else if c.op.SetBackends? then Goto(AtTxn(attempt, s.kvs[k].value.(backends := c.op.backends), s.kvs[k].modRev))
      else Stay
    case AtTxn(attempt, lb, modRev) =>
      if ModRev(s.kvs, k) == modRev then Write(Put(s.kvs, k, lb, s.rev + 1), Stored(lb))
      else if attempt + 1 < MAX_ATTEMPTS then Goto(AtGet(attempt + 1))
      else Goto(Done(Conflict))
    case AtScan =>
      if c.op.Create? && NameTaken(Values(s.kvs), c.op.lb.project, c.op.lb.name) then Say(AlreadyExists)
      else Goto(AtCreate)
    case AtCreate =>
      if CreateRev(s.kvs, k) == 0 && c.op.Create? then Write(Put(s.kvs, k, c.op.lb, s.rev + 1), Stored(c.op.lb))
      else Goto(Done(UuidTaken))
    case AtDelete =>
      if k in s.kvs then Write(s.kvs - {k}, Removed) else Say(NotFound)
    case Done(_) => Stay
  }

  ghost function AdvanceCall(s: System, id: nat, heard: bool): System
    requires id in s.calls
  {
    match Decide(s, s.calls[id])
    case Stay => s
    case Goto(pc) => Move(s, id, pc)
    case Say(outcome) => Answer(s, id, outcome)
    case Write(kvs, outcome) => Commit(s, id, kvs, outcome, heard)
  }

  /** The action makes the call's next request take effect. */
  ghost predicate Steps(s: System, a: Action) {
    !a.Invoke? && a.id in s.calls && (a.Advance? || (a.LoseReply? && Decide(s, s.calls[a.id]).Write?))
  }

  /** The action ends the call with an error and no effect. */
  ghost predicate Fails(s: System, a: Action) {
    !a.Invoke? && !a.Advance? && a.id in s.calls && !Steps(s, a) && !s.calls[a.id].pc.Done?
  }

  ghost function Next(s: System, a: Action): System {
    if Steps(s, a) then AdvanceCall(s, a.id, a.Advance?)
    else if Fails(s, a) then Move(s, a.id, Done(Failed))
    else if a.Invoke? && a.id !in s.calls && FreshFor(s, a.op) then
      s.(calls := s.calls[a.id := Call(a.op, Start(a.op), {}, true)])
    else s
  }

  /** The state after a schedule; actions that are not possible do nothing. */
  ghost function Run(s: System, acts: seq<Action>): System {
    if acts == [] then s else Next(Run(s, acts[..|acts| - 1]), acts[|acts| - 1])
  }

  ghost predicate Initial(s: System) {
    && WellRevised(s.rev, s.kvs) && s.calls == map[] && s.history == []
    && forall u :: u in s.kvs ==> s.kvs[u].value.uuid == u
  }

  // ---- The invariant ----

  /** A commit from this read would store the current value with only the backends changed. */
  ghost predicate ReadIsCurrent(s: System, c: Call)
    requires c.pc.AtTxn? && c.op.SetBackends?
  {
    ModRev(s.kvs, c.op.uuid) == c.pc.modRev ==>
      c.op.uuid in s.kvs && c.pc.lb == s.kvs[c.op.uuid].value.(backends := c.op.backends)
  }

  /** Each lost attempt was lost to a different rival. */
  ghost predicate LossesCounted(s: System, c: Call) {
    match c.pc
    case AtGet(attempt) => attempt <= |c.rivals|
    case AtTxn(attempt, _, modRev) =>
      attempt <= |c.rivals| && (ModRev(s.kvs, Target(c.op)) != modRev ==> attempt + 1 <= |c.rivals|)
    case Done(Conflict) => MAX_ATTEMPTS <= |c.rivals|
    case _ => true
  }

  ghost predicate Fits(op: Op, pc: PC) {
    match pc
    case AtGet(attempt) => op.SetBackends? && attempt < MAX_ATTEMPTS
    case AtTxn(attempt, _, _) => op.SetBackends? && attempt < MAX_ATTEMPTS
    case AtScan => op.Create?
    case AtCreate => op.Create?
    case AtDelete => op.Delete?
    case Done(_) => true
  }

  ghost predicate CallOk(s: System, id: nat)
    requires id in s.calls
  {
    var c := s.calls[id];
    && Fits(c.op, c.pc) && LossesCounted(s, c)
    && (c.pc.AtTxn? ==> 1 <= c.pc.modRev <= s.rev && ReadIsCurrent(s, c))
    && (c.op.Create? && !c.pc.Done? ==> c.op.lb.uuid !in s.kvs)
    && (!c.heard ==> Wrote(c))
    && forall j :: j in c.rivals ==> IsRival(s, id, j)
  }

  /** The call's write took effect. */
  predicate Wrote(c: Call) {
    c.pc.Done? && (c.pc.outcome.Stored? || c.pc.outcome.Removed?)
  }

  /** j is another call that wrote id's key. */
  ghost predicate IsRival(s: System, id: nat, j: nat)
    requires id in s.calls
  {
    && j != id && j in s.calls && Target(s.calls[j].op) == Target(s.calls[id].op) && Wrote(s.calls[j])
  }

  ghost predicate CallsOk(s: System) {
    && WellRevised(s.rev, s.kvs)
    && (forall i :: i in s.calls ==> CallOk(s, i))
    && (forall i, j :: i in s.calls && j in s.calls && i != j && s.calls[i].op.Create? && s.calls[j].op.Create?
          ==> s.calls[i].op.lb.uuid != s.calls[j].op.lb.uuid)
  }

  lemma CommitKeepsRivals(s: System, id: nat, kvs: Keyspace<LoadBalancer>, outcome: Outcome, heard: bool, i: nat)
    requires id in s.calls && i in s.calls && CallOk(s, i) && !s.calls[id].pc.Done?
    requires outcome.Stored? || outcome.Removed?
    ensures var s' := Commit(s, id, kvs, outcome, heard); forall j :: j in s'.calls[i].rivals ==> IsRival(s', i, j)
  {
    var s' := Commit(s, id, kvs, outcome, heard);
    forall j | j in s'.calls[i].rivals ensures IsRival(s', i, j) {
      if j != id { assert IsRival(s, i, j); }
    }
  }

  /** A commit that spoils a call's read is one more rival of that call. */
  lemma CommitKeepsCounts(s: System, id: nat, kvs: Keyspace<LoadBalancer>, outcome: Outcome, heard: bool, i: nat)
    requires id in s.calls && i in s.calls && CallOk(s, i) && !s.calls[id].pc.Done?
    requires outcome.Stored? || outcome.Removed?
    requires forall k :: k != Target(s.calls[id].op) ==> (k in kvs <==> k in s.kvs) && (k in kvs ==> kvs[k] == s.kvs[k])
    ensures LossesCounted(Commit(s, id, kvs, outcome, heard), Commit(s, id, kvs, outcome, heard).calls[i])
  {
    var c, c' := s.calls[i], Commit(s, id, kvs, outcome, heard).calls[i];
    assert id !in c.rivals;
    if c'.rivals != c.rivals {
      assert |c'.rivals| == |c.rivals| + 1;
    } else if i != id && !c.pc.Done? {
      assert Target(c.op) != Target(s.calls[id].op);
    }
  }

  lemma {:induction false} CommitKeepsCalls(s: System, id: nat, kvs: Keyspace<LoadBalancer>, outcome: Outcome,
    heard: bool)
    requires CallsOk(s) && id in s.calls && !s.calls[id].pc.Done?
    requires outcome.Stored? || outcome.Removed?
    requires WellRevised(s.rev + 1, kvs)
    requires forall k :: k != Target(s.calls[id].op) ==> (k in kvs <==> k in s.kvs) && (k in kvs ==> kvs[k] == s.kvs[k])
    requires ModRev(kvs, Target(s.calls[id].op)) == 0 || ModRev(kvs, Target(s.calls[id].op)) == s.rev + 1
    requires forall i :: i in s.calls && i != id && s.calls[i].op.Create? && !s.calls[i].pc.Done? ==>
      s.calls[i].op.lb.uuid !in kvs
    ensures CallsOk(Commit(s, id, kvs, outcome, heard))
  {
    var s' := Commit(s, id, kvs, outcome, heard);
    forall i | i in s'.calls ensures CallOk(s', i) {
      CommitKeepsRivals(s, id, kvs, outcome, heard, i);
      CommitKeepsCounts(s, id, kvs, outcome, heard, i);
      assert CallOk(s, i);
    }
  }

  lemma MoveKeepsCalls(s: System, id: nat, pc: PC)
    requires CallsOk(s) && id in s.calls && !s.calls[id].pc.Done?
    requires CallOk(Move(s, id, pc), id)
    ensures CallsOk(Move(s, id, pc))
  {
    var s' := Move(s, id, pc);
    forall i | i in s'.calls ensures CallOk(s', i) {
      assert CallOk(s, i);
      forall j | j in s'.calls[i].rivals ensures IsRival(s', i, j) {
        assert IsRival(s, i, j);
      }
    }
  }

  lemma AnswerKeepsCalls(s: System, id: nat, outcome: Outcome)
    requires CallsOk(s) && id in s.calls && !s.calls[id].pc.Done? && !outcome.Conflict?
    ensures CallsOk(Answer(s, id, outcome))
  {
    var m := Move(s, id, Done(outcome));
    assert CallOk(s, id);
    forall j | j in s.calls[id].rivals ensures IsRival(m, id, j) { assert IsRival(s, id, j); }
    MoveKeepsCalls(s, id, Done(outcome));
    var s' := Answer(s, id, outcome);
    forall i | i in s'.calls ensures CallOk(s', i) {
      assert CallOk(m, i);
      forall j | j in s'.calls[i].rivals ensures IsRival(s', i, j) { assert IsRival(m, i, j); }
    }
  }

  /** A write changes the caller's own key only, and leaves it absent or at the new revision. */
  lemma WriteIsLocal(s: System, id: nat, kvs: Keyspace<LoadBalancer>, outcome: Outcome)
    requires CallsOk(s) && id in s.calls && CallOk(s, id) && Decide(s, s.calls[id]) == Write(kvs, outcome)
    ensures !s.calls[id].pc.Done? && (outcome.Stored? || outcome.Removed?) && WellRevised(s.rev + 1, kvs)
    ensures forall k :: k != Target(s.calls[id].op) ==> (k in kvs <==> k in s.kvs) && (k in kvs ==> kvs[k] == s.kvs[k])
    ensures ModRev(kvs, Target(s.calls[id].op)) == 0 || ModRev(kvs, Target(s.calls[id].op)) == s.rev + 1
    ensures Target(s.calls[id].op) in kvs ==> Target(s.calls[id].op) in s.kvs || s.calls[id].op.Create?
  {}

  lemma {:induction false} AdvanceKeepsCalls(s: System, id: nat, heard: bool)
    requires CallsOk(s) && id in s.calls
    ensures CallsOk(AdvanceCall(s, id, heard))
  {
    assert CallOk(s, id);
    match Decide(s, s.calls[id])
    case Stay =>
    case Goto(pc) => GotoKeepsCalls(s, id, pc);
    case Say(outcome) => AnswerKeepsCalls(s, id, outcome);
    case Write(kvs, outcome) =>
      WriteIsLocal(s, id, kvs, outcome);
      forall i | i in s.calls && i != id && s.calls[i].op.Create? && !s.calls[i].pc.Done?
        ensures s.calls[i].op.lb.uuid !in kvs {
        assert CallOk(s, i);
      }
      CommitKeepsCalls(s, id, kvs, outcome, heard);
  }

  lemma GotoKeepsCalls(s: System, id: nat, pc: PC)
    requires CallsOk(s) && id in s.calls && CallOk(s, id) && Decide(s, s.calls[id]) == Goto(pc)
    ensures CallsOk(Move(s, id, pc))
  {
    var s' := Move(s, id, pc);
    forall j | j in s.calls[id].rivals ensures IsRival(s', id, j) { assert IsRival(s, id, j); }
    MoveKeepsCalls(s, id, pc);
  }

  lemma FailKeepsCalls(s: System, id: nat)
    requires CallsOk(s) && id in s.calls && !s.calls[id].pc.Done?
    ensures CallsOk(Move(s, id, Done(Failed)))
  {
    assert CallOk(s, id);
    forall j | j in s.calls[id].rivals ensures IsRival(Move(s, id, Done(Failed)), id, j) { assert IsRival(s, id, j); }
    MoveKeepsCalls(s, id, Done(Failed));
  }

  lemma InvokeKeepsCalls(s: System, id: nat, op: Op)
    requires CallsOk(s) && id !in s.calls && FreshFor(s, op)
    ensures CallsOk(Next(s, Invoke(id, op)))
  {
    var s' := Next(s, Invoke(id, op));
    forall i | i in s'.calls ensures CallOk(s', i) {
      if i != id {
        assert CallOk(s, i);
        forall j | j in s'.calls[i].rivals ensures IsRival(s', i, j) { assert IsRival(s, i, j); }
      }
    }
  }

  lemma {:induction false} NextKeepsCalls(s: System, a: Action)
    requires CallsOk(s)
    ensures CallsOk(Next(s, a))
  {
    if Steps(s, a) {
      AdvanceKeepsCalls(s, a.id, a.Advance?);
    } else if Fails(s, a) {
      FailKeepsCalls(s, a.id);
    } else if a.Invoke? && a.id !in s.calls && FreshFor(s, a.op) {
      InvokeKeepsCalls(s, a.id, a.op);
    }
  }

  lemma {:induction false} ContinueKeepsCalls(s: System, acts: seq<Action>)
    requires CallsOk(s)
    ensures CallsOk(Run(s, acts))
  {
    if acts != [] {
      ContinueKeepsCalls(s, acts[..|acts| - 1]);
      NextKeepsCalls(Run(s, acts[..|acts| - 1]), acts[|acts| - 1]);
    }
  }

  lemma {:induction false} RunKeepsCalls(s: System, acts: seq<Action>)
    requires Initial(s)
    ensures CallsOk(Run(s, acts))
  {
    ContinueKeepsCalls(s, acts);
  }

  // ---- Contention ----

  /**
   In every run, a call reports a conflict only if at least three other calls wrote its key while it ran. With
   at most two overlapping writers it never does.
   */
  lemma ConflictNeedsThreeRivals(s: System, acts: seq<Action>, id: nat)
    requires Initial(s)
    requires var s' := Run(s, acts); id in s'.calls && s'.calls[id].pc == Done(Conflict)
    ensures var s' := Run(s, acts);
      |s'.calls[id].rivals| >= 3 && forall j :: j in s'.calls[id].rivals ==> IsRival(s', id, j)
  {
    RunKeepsCalls(s, acts);
    assert CallOk(Run(s, acts), id);
  }

  /** A finished call stays as it is, and only running calls become rivals. */
  lemma NextRivals(s: System, a: Action, j: nat, id: nat)
    requires j in s.calls && s.calls[j].pc.Done?
    ensures j in Next(s, a).calls && Next(s, a).calls[j].pc == s.calls[j].pc
    ensures id in Next(s, a).calls && j in Next(s, a).calls[id].rivals ==> id in s.calls && j in s.calls[id].rivals
  {}

  /** A call's rivals were all still running, or not yet invoked, when it was invoked itself. */
  lemma {:induction false} RivalsOverlap(s: System, acts: seq<Action>, id: nat, j: nat)
    requires id !in s.calls && j in s.calls && s.calls[j].pc.Done?
    ensures j in Run(s, acts).calls && Run(s, acts).calls[j].pc == s.calls[j].pc
    ensures id in Run(s, acts).calls ==> j !in Run(s, acts).calls[id].rivals
  {
    if acts != [] {
      RivalsOverlap(s, acts[..|acts| - 1], id, j);
      NextRivals(Run(s, acts[..|acts| - 1]), acts[|acts| - 1], j, id);
    }
  }

  /** The calls other than id that wrote id's key at some point between m and n. */
  ghost function WritersBetween(m: System, n: System, id: nat): set<nat>
    requires id in n.calls
  {
    set j | j in n.calls && IsRival(n, id, j) && !(j in m.calls && m.calls[j].pc.Done?)
  }

  /**
   If from the call's invocation in m on at most two other calls write its key, it never reports a conflict, whatever
   else the schedule does.
   */
  lemma TwoWritersNeverConflict(s: System, before: seq<Action>, acts: seq<Action>, id: nat)
    requires Initial(s) && id !in Run(s, before).calls && id in Run(Run(s, before), acts).calls
    requires |WritersBetween(Run(s, before), Run(Run(s, before), acts), id)| <= 2
    ensures Run(Run(s, before), acts).calls[id].pc != Done(Conflict)
  {
    var m := Run(s, before);
    var n := Run(m, acts);
    RunKeepsCalls(s, before);
    ContinueKeepsCalls(m, acts);
    if n.calls[id].pc == Done(Conflict) {
      assert CallOk(n, id);
      forall j | j in n.calls[id].rivals ensures j in WritersBetween(m, n, id) {
        assert IsRival(n, id, j);
        if j in m.calls && m.calls[j].pc.Done? { RivalsOverlap(m, acts, id, j); }
      }
      SubsetSize(n.calls[id].rivals, WritersBetween(m, n, id));
    }
  }

  // ---- No resurrection ----

  ghost predicate NoCreateOf(s: System, uuid: string) {
    forall i :: i in s.calls && s.calls[i].op.Create? && s.calls[i].op.lb.uuid == uuid ==> s.calls[i].pc.Done?
  }

  lemma NextKeepsAbsent(s: System, a: Action, uuid: string)
    requires CallsOk(s) && uuid !in s.kvs && NoCreateOf(s, uuid)
    requires a.Invoke? && a.op.Create? ==> a.op.lb.uuid != uuid
    ensures uuid !in Next(s, a).kvs && NoCreateOf(Next(s, a), uuid)
  {
    if Steps(s, a) {
      assert CallOk(s, a.id);
    }
  }

  /** Once a load balancer is gone, no schedule without a new Create of its uuid brings it back. */
  lemma {:induction false} NoResurrection(s: System, acts: seq<Action>, uuid: string)
    requires CallsOk(s) && uuid !in s.kvs && NoCreateOf(s, uuid)
    requires forall i :: 0 <= i < |acts| && acts[i].Invoke? && acts[i].op.Create? ==> acts[i].op.lb.uuid != uuid
    ensures CallsOk(Run(s, acts)) && uuid !in Run(s, acts).kvs && NoCreateOf(Run(s, acts), uuid)
  {
    if acts != [] {
      var init, a := acts[..|acts| - 1], acts[|acts| - 1];
      NoResurrection(s, init, uuid);
      NextKeepsCalls(Run(s, init), a);
      NextKeepsAbsent(Run(s, init), a, uuid);
    }
  }

  // ---- Refinement of the sequential store ----

  /** The rows after the effect of one event. */
  function Effect(rows: Rows, e: Event): Rows {
    match e.outcome
    case Stored(lb) => rows[lb.uuid := lb]
    case Removed => rows - {Target(e.op)}
    case _ => rows
  }

  function Replay(rows: Rows, history: seq<Event>): Rows {
    if history == [] then rows
    else Effect(Replay(rows, history[..|history| - 1]), history[|history| - 1])
  }

  /** A create that committed although its name was taken after its scan. */
  ghost predicate RacyCreate(rows: Rows, e: Event) {
    e.op.Create? && e.outcome == Stored(e.op.lb) && NameTaken(rows, e.op.lb.project, e.op.lb.name)
  }

  /** The event is what the sequential store does and answers on these rows. */
  ghost predicate Sequential(rows: Rows, e: Event) {
    MemStep(rows, e.op) == (Effect(rows, e), e.outcome)
  }

  ghost predicate SequentialAt(rows: Rows, history: seq<Event>, i: nat)
    requires i < |history|
  {
    Sequential(Replay(rows, history[..i]), history[i])
  }

  ghost predicate RacyAt(rows: Rows, history: seq<Event>, i: nat)
    requires i < |history|
  {
    RacyCreate(Replay(rows, history[..i]), history[i])
  }

  ghost predicate HistoryOk(rows: Rows, history: seq<Event>) {
    forall i :: 0 <= i < |history| ==> SequentialAt(rows, history, i) || RacyAt(rows, history, i)
  }

  lemma ReplayAppend(rows: Rows, history: seq<Event>, e: Event)
    requires HistoryOk(rows, history)
    requires Sequential(Replay(rows, history), e) || RacyCreate(Replay(rows, history), e)
    ensures Replay(rows, history + [e]) == Effect(Replay(rows, history), e)
    ensures HistoryOk(rows, history + [e])
  {
    var h := history + [e];
    assert h[..|h| - 1] == history;
    forall i | 0 <= i < |h| ensures SequentialAt(rows, h, i) || RacyAt(rows, h, i) {
      assert h[..i] == history[..i];
      assert history[..|history|] == history;
      if i < |history| { assert SequentialAt(rows, history, i) || RacyAt(rows, history, i); }
    }
  }

  ghost predicate Refines(init: Rows, s: System) {
    && RowsKeyed(s.kvs)
    && Values(s.kvs) == Replay(init, s.history) && HistoryOk(init, s.history)
  }

  lemma AnswerRefines(init: Rows, s: System, id: nat, outcome: Outcome)
    requires Refines(init, s) && id in s.calls && !outcome.Stored? && !outcome.Removed?
    requires MemStep(Values(s.kvs), s.calls[id].op) == (Values(s.kvs), outcome)
    ensures Refines(init, Answer(s, id, outcome))
  {
    ReplayAppend(init, s.history, Event(id, s.calls[id].op, outcome));
  }

  lemma CommitRefines(init: Rows, s: System, id: nat, kvs: Keyspace<LoadBalancer>, outcome: Outcome, heard: bool)
    requires Refines(init, s) && id in s.calls && RowsKeyed(kvs)
    requires
      var e := Event(id, s.calls[id].op, outcome);
      Effect(Values(s.kvs), e) == Values(kvs) && (Sequential(Values(s.kvs), e) || RacyCreate(Values(s.kvs), e))
    ensures Refines(init, Commit(s, id, kvs, outcome, heard))
  {
    ReplayAppend(init, s.history, Event(id, s.calls[id].op, outcome));
  }

  ghost predicate RowsKeyed(kvs: Keyspace<LoadBalancer>) {
    forall u :: u in kvs ==> kvs[u].value.uuid == u
  }

  /** What a call writes is the sequential effect of its operation on the current rows, or a racy create. */
  lemma WriteEffect(s: System, id: nat, kvs: Keyspace<LoadBalancer>, outcome: Outcome)
    requires id in s.calls && CallOk(s, id) && RowsKeyed(s.kvs)
    requires Decide(s, s.calls[id]) == Write(kvs, outcome)
    ensures
      var e := Event(id, s.calls[id].op, outcome);
      && RowsKeyed(kvs) && Effect(Values(s.kvs), e) == Values(kvs)
      && (Sequential(Values(s.kvs), e) || RacyCreate(Values(s.kvs), e))
  {
    var c := s.calls[id];
    match c.pc
    case AtTxn(_, lb, _) => ValuesOfPut(s.kvs, c.op.uuid, lb, s.rev + 1);
    case AtCreate => ValuesOfPut(s.kvs, c.op.lb.uuid, c.op.lb, s.rev + 1);
    case AtDelete => ValuesOfRemove(s.kvs, c.op.uuid);
  }

  /** An answer without a write is the sequential store's answer on the current rows. */
  lemma SayEffect(s: System, id: nat, outcome: Outcome)
    requires id in s.calls && CallOk(s, id) && Decide(s, s.calls[id]) == Say(outcome)
    ensures !outcome.Stored? && !outcome.Removed?
    ensures MemStep(Values(s.kvs), s.calls[id].op) == (Values(s.kvs), outcome)
  {}

  lemma AdvanceRefines(init: Rows, s: System, id: nat, heard: bool)
    requires CallsOk(s) && Refines(init, s) && id in s.calls
    ensures Refines(init, AdvanceCall(s, id, heard))
  {
    assert CallOk(s, id);
    match Decide(s, s.calls[id])
    case Stay =>
    case Goto(_) =>
    case Say(outcome) =>
      SayEffect(s, id, outcome);
      AnswerRefines(init, s, id, outcome);
    case Write(kvs, outcome) =>
      WriteEffect(s, id, kvs, outcome);
      CommitRefines(init, s, id, kvs, outcome, heard);
  }

  /** In every run the store is the replay of the recorded history, event by event the sequential store's. */
  lemma {:induction false} RunRefines(s: System, acts: seq<Action>)
    requires Initial(s)
    ensures Refines(Values(s.kvs), Run(s, acts))
  {
    if acts != [] {
      var init, a := acts[..|acts| - 1], acts[|acts| - 1];
      RunKeepsCalls(s, init);
      RunRefines(s, init);
      if Steps(Run(s, init), a) {
        AdvanceRefines(Values(s.kvs), Run(s, init), a.id, a.Advance?);
      }
    }
  }

  /** A committed SetBackends stored exactly the value in the store just before it, with only the backends changed. */
  lemma {:induction false} SuccessChangesBackendsOnly(s: System, acts: seq<Action>, i: nat)
    requires Initial(s)
    requires var h := Run(s, acts).history; i < |h| && h[i].op.SetBackends? && h[i].outcome.Stored?
    ensures
      var h := Run(s, acts).history;
      var before := Replay(Values(s.kvs), h[..i]);
      var u := h[i].op.uuid;
      && u in before && h[i].outcome.lb == before[u].(backends := h[i].op.backends)
      && Replay(Values(s.kvs), h[..i + 1]) == before[u := h[i].outcome.lb]
  {
    RunRefines(s, acts);
    var h := Run(s, acts).history;
    var before := Replay(Values(s.kvs), h[..i]);
    assert h[..i + 1][..i] == h[..i];
    assert SequentialAt(Values(s.kvs), h, i) || RacyAt(Values(s.kvs), h, i);
  }

  // ---- One event per answered call ----

  predicate Effective(outcome: Outcome) {
    !outcome.Conflict? && !outcome.Failed? && !outcome.UuidTaken?
  }

  /** The history holds exactly the calls that returned an answer, once each, with the answer they returned. */
  ghost predicate Recorded(s: System) {
    && (forall i :: 0 <= i < |s.history| ==>
          var e := s.history[i];
          e.id in s.calls && s.calls[e.id].op == e.op && s.calls[e.id].pc == Done(e.outcome) && Effective(e.outcome))
    && (forall i, j :: 0 <= i < j < |s.history| ==> s.history[i].id != s.history[j].id)
    && (forall id :: id in s.calls && s.calls[id].pc.Done? && Effective(s.calls[id].pc.outcome) ==>
          exists i :: 0 <= i < |s.history| && s.history[i].id == id)
  }

  lemma AppendRecorded(s: System, s': System, id: nat, outcome: Outcome)
    requires Recorded(s) && id in s.calls && !s.calls[id].pc.Done? && Effective(outcome)
    requires s'.calls.Keys == s.calls.Keys
    requires forall i :: i in s.calls && i != id ==> s'.calls[i].op == s.calls[i].op && s'.calls[i].pc == s.calls[i].pc
    requires s'.calls[id].op == s.calls[id].op && s'.calls[id].pc == Done(outcome)
    requires s'.history == s.history + [Event(id, s.calls[id].op, outcome)]
    ensures Recorded(s')
  {
    forall i | i in s'.calls && s'.calls[i].pc.Done? && Effective(s'.calls[i].pc.outcome)
      ensures exists j :: 0 <= j < |s'.history| && s'.history[j].id == i
    {
      if i == id {
        assert s'.history[|s.history|].id == i;
      } else {
        var j :| 0 <= j < |s.history| && s.history[j].id == i;
        assert s'.history[j].id == i;
      }
    }
  }

  /** A step that answers nothing finishes no call, except with an outcome that has no effect. */
  lemma SilentRecorded(s: System, s': System)
    requires Recorded(s) && s'.history == s.history && s.calls.Keys <= s'.calls.Keys
    requires forall i :: i in s.calls ==>
      s'.calls[i].op == s.calls[i].op && (s.calls[i].pc.Done? ==> s'.calls[i].pc == s.calls[i].pc)
    requires forall i :: i in s'.calls && s'.calls[i].pc.Done? && Effective(s'.calls[i].pc.outcome) ==>
      i in s.calls && s.calls[i].pc.Done?
    ensures Recorded(s')
  {}

  lemma AdvanceRecorded(s: System, id: nat, heard: bool)
    requires CallsOk(s) && Recorded(s) && id in s.calls
    ensures Recorded(AdvanceCall(s, id, heard))
  {
    assert CallOk(s, id);
    var s' := AdvanceCall(s, id, heard);
    match Decide(s, s.calls[id])
    case Stay =>
    case Goto(_) => SilentRecorded(s, s');
    case Say(outcome) => AppendRecorded(s, s', id, outcome);
    case Write(_, outcome) => AppendRecorded(s, s', id, outcome);
  }

  lemma {:induction false} NextRecorded(s: System, a: Action)
    requires CallsOk(s) && Recorded(s)
    ensures Recorded(Next(s, a))
  {
    if Steps(s, a) {
      AdvanceRecorded(s, a.id, a.Advance?);
    } else {
      SilentRecorded(s, Next(s, a));
    }
  }

  /**
   In every run each answered call, and each call whose reply was lost, took effect exactly once; a conflict, or a
   failure before the request took effect, never did.
   */
  lemma {:induction false} RunRecorded(s: System, acts: seq<Action>)
    requires Initial(s)
    ensures Recorded(Run(s, acts))
    ensures forall id :: id in Run(s, acts).calls && !Run(s, acts).calls[id].heard ==>
      exists i :: 0 <= i < |Run(s, acts).history| && Run(s, acts).history[i].id == id
  {
    RunKeepsCalls(s, acts);
    if acts != [] {
      var init, a := acts[..|acts| - 1], acts[|acts| - 1];
      RunKeepsCalls(s, init);
      RunRecorded(s, init);
      NextRecorded(Run(s, init), a);
    }
    forall id | id in Run(s, acts).calls && !Run(s, acts).calls[id].heard
      ensures exists i :: 0 <= i < |Run(s, acts).history| && Run(s, acts).history[i].id == id
    {
      assert CallOk(Run(s, acts), id);
    }
  }
}
