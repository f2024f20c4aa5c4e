/**
 What load balancer calls do when left alone, and how far contention can take them: the sequential store's answer, and
 exactly three lost races to a conflict.
 */
module LbContention {
  import opened EtcdKV
  import opened LbStore
  import opened LbProtocol

  // ---- A call that runs alone ----

  ghost function Alone(s: System, id: nat, op: Op): System {
    Next(Next(Next(s, Invoke(id, op)), Advance(id)), Advance(id))
  }

  /** In any state, a call with nobody in its way does what the sequential store does and answers what it answers. */
  lemma AloneIsSequential(s: System, id: nat, op: Op)
    requires CallsOk(s) && RowsKeyed(s.kvs) && id !in s.calls && FreshFor(s, op)
    ensures
      var s' := Alone(s, id, op);
      && id in s'.calls && s'.calls[id].pc.Done? && s'.calls[id].heard && RowsKeyed(s'.kvs)
      && (Values(s'.kvs), s'.calls[id].pc.outcome) == MemStep(Values(s.kvs), op)
  {
    var s1 := Next(s, Invoke(id, op));
    NextKeepsCalls(s, Invoke(id, op));
    NextKeepsCalls(s1, Advance(id));
    FirstRequest(s1, id);
    var s2 := Next(s1, Advance(id));
    if !s2.calls[id].pc.Done? {
      assert s2.kvs == s.kvs;
      SecondRequest(s2, id);
    }
  }

  lemma FirstRequest(s: System, id: nat)
    requires CallsOk(s) && RowsKeyed(s.kvs) && id in s.calls && s.calls[id].pc == Start(s.calls[id].op)
    requires s.calls[id].heard
    ensures
      var s', k := Next(s, Advance(id)), Target(s.calls[id].op);
      && id in s'.calls && s'.calls[id].op == s.calls[id].op && s'.calls[id].heard && RowsKeyed(s'.kvs)
      && (s'.calls[id].pc.Done? ==> (Values(s'.kvs), s'.calls[id].pc.outcome) == MemStep(Values(s.kvs), s.calls[id].op))
      && (!s'.calls[id].pc.Done? ==> s'.kvs == s.kvs && s'.rev == s.rev && ReadyToWrite(s', id))
  {
    assert CallOk(s, id);
    match Decide(s, s.calls[id])
    case Say(outcome) => SayEffect(s, id, outcome);
    case Write(kvs, outcome) => WriteEffect(s, id, kvs, outcome);
    case _ =>
  }

  /** The call's next request is its write, and nothing stands in its way. */
  ghost predicate ReadyToWrite(s: System, id: nat)
    requires id in s.calls
  {
    var c := s.calls[id];
    match c.pc
    case AtTxn(_, _, modRev) => c.op.SetBackends? && ModRev(s.kvs, c.op.uuid) == modRev
    case AtCreate => c.op.Create? && !NameTaken(Values(s.kvs), c.op.lb.project, c.op.lb.name)
    case _ => false
  }

  lemma SecondRequest(s: System, id: nat)
    requires CallsOk(s) && RowsKeyed(s.kvs) && id in s.calls && ReadyToWrite(s, id) && s.calls[id].heard
    ensures
      var s' := Next(s, Advance(id));
      && id in s'.calls && s'.calls[id].pc.Done? && s'.calls[id].heard && RowsKeyed(s'.kvs)
      && (Values(s'.kvs), s'.calls[id].pc.outcome) == MemStep(Values(s.kvs), s.calls[id].op)
  {
    assert CallOk(s, id);
    match Decide(s, s.calls[id])
    case Write(kvs, outcome) => WriteEffect(s, id, kvs, outcome);
    case _ =>
  }

  // ---- Losing races ----

  ghost predicate Trying(s: System, id: nat, attempt: nat) {
    && CallsOk(s) && id in s.calls && s.calls[id].op.SetBackends?
    && s.calls[id].op.uuid in s.kvs && s.calls[id].pc == AtGet(attempt)
  }

  /** The call has read its row, and the row is as it was read. */
  ghost predicate HasRead(s: System, id: nat, attempt: nat) {
    && CallsOk(s) && id in s.calls && s.calls[id].op.SetBackends? && s.calls[id].op.uuid in s.kvs
    && s.calls[id].pc.AtTxn? && s.calls[id].pc.attempt == attempt
    && s.calls[id].pc.modRev == s.kvs[s.calls[id].op.uuid].modRev
  }

  /** The two states hold the same calls, but for what id does. */
  ghost predicate OthersSame(s: System, s': System, id: nat) {
    s'.calls.Keys == s.calls.Keys && forall i :: i in s.calls && i != id ==> s'.calls[i] == s.calls[i]
  }

  lemma ReadStep(s: System, id: nat, attempt: nat)
    requires Trying(s, id, attempt)
    ensures
      var a := Next(s, Advance(id));
      && HasRead(a, id, attempt) && a.kvs == s.kvs && a.rev == s.rev && OthersSame(s, a, id)
      && a.calls[id].op == s.calls[id].op && a.calls[id].rivals == s.calls[id].rivals
      && a.calls[id].heard == s.calls[id].heard
  {
    NextKeepsCalls(s, Advance(id));
  }

  /** The write goes through: the row moves on, and every call trying on that key has met a rival. */
  lemma WriteStep(s: System, w: nat, attempt: nat)
    requires HasRead(s, w, attempt)
    ensures
      var b, u := Next(s, Advance(w)), s.calls[w].op.uuid;
      && CallsOk(b) && b.calls.Keys == s.calls.Keys && u in b.kvs && b.kvs[u].modRev == s.rev + 1
      && b.calls[w].pc.Done? && b.calls[w].pc.outcome.Stored?
      && b.calls[w].pc.outcome.lb.backends == s.calls[w].op.backends && b.kvs[u].value == b.calls[w].pc.outcome.lb
      && forall i :: (i in s.calls && i != w && s.calls[i].op.SetBackends? && s.calls[i].op.uuid == u
                      && !s.calls[i].pc.Done?) ==>
           b.calls[i] == s.calls[i].(rivals := s.calls[i].rivals + {w})
  {
    NextKeepsCalls(s, Advance(w));
    assert CallOk(s, w);
  }

  /** The write is turned down: the call goes round again, or gives up after the third time. */
  lemma TurnedDown(s: System, id: nat, attempt: nat)
    requires CallsOk(s) && id in s.calls && s.calls[id].op.SetBackends? && s.calls[id].op.uuid in s.kvs
    requires s.calls[id].pc.AtTxn? && s.calls[id].pc.attempt == attempt < 3
    requires s.calls[id].pc.modRev != s.kvs[s.calls[id].op.uuid].modRev
    ensures
      var b := Next(s, Advance(id));
      && CallsOk(b) && b.calls.Keys == s.calls.Keys && b.calls[id].rivals == s.calls[id].rivals
      && b.calls[id].op == s.calls[id].op && b.calls[id].heard == s.calls[id].heard
      && (if attempt + 1 < 3 then Trying(b, id, attempt + 1) else b.calls[id].pc == Done(Conflict))
  {
    NextKeepsCalls(s, Advance(id));
  }

  lemma JoinStep(s: System, id: nat, w: nat, backends: seq<string>, attempt: nat)
    requires HasRead(s, id, attempt) && w !in s.calls
    ensures
      var b := Next(s, Invoke(w, SetBackends(s.calls[id].op.uuid, backends)));
      && Trying(b, w, 0) && b.kvs == s.kvs && b.rev == s.rev && b.calls.Keys == s.calls.Keys + {w}
      && b.calls[id] == s.calls[id] && b.calls[w].op == SetBackends(s.calls[id].op.uuid, backends)
  {
    NextKeepsCalls(s, Invoke(w, SetBackends(s.calls[id].op.uuid, backends)));
  }

  lemma RunSnoc(s: System, acts: seq<Action>, a: Action)
    ensures Run(s, acts + [a]) == Next(Run(s, acts), a)
  {
    assert (acts + [a])[..|acts|] == acts;
  }

  /** What one lost race leaves of the call. */
  ghost predicate LostOne(s: System, s': System, id: nat, w: nat, attempt: nat)
    requires id in s.calls
  {
    && CallsOk(s') && id in s'.calls && s'.calls.Keys == s.calls.Keys + {w}
    && s'.calls[id].op == s.calls[id].op && s'.calls[id].heard == s.calls[id].heard
    && s'.calls[id].rivals == s.calls[id].rivals + {w}
    && (if attempt + 1 < 3 then Trying(s', id, attempt + 1) else s'.calls[id].pc == Done(Conflict))
  }

  lemma ReadAfter(s: System, acts: seq<Action>, id: nat, attempt: nat, acts': seq<Action>)
    requires Trying(Run(s, acts), id, attempt) && acts' == acts + [Advance(id)]
    ensures
      var m, a := Run(s, acts), Run(s, acts');
      && HasRead(a, id, attempt) && a.kvs == m.kvs && a.rev == m.rev && OthersSame(m, a, id)
      && a.calls[id].op == m.calls[id].op && a.calls[id].rivals == m.calls[id].rivals
      && a.calls[id].heard == m.calls[id].heard
  {
    RunSnoc(s, acts, Advance(id));
    ReadStep(Run(s, acts), id, attempt);
  }

  lemma JoinAfter(s: System, acts: seq<Action>, id: nat, w: nat, backends: seq<string>, attempt: nat,
                  acts': seq<Action>)
    requires HasRead(Run(s, acts), id, attempt) && w !in Run(s, acts).calls
    requires acts' == acts + [Invoke(w, SetBackends(Run(s, acts).calls[id].op.uuid, backends))]
    ensures
      var m, b := Run(s, acts), Run(s, acts');
      && Trying(b, w, 0) && b.kvs == m.kvs && b.rev == m.rev && b.calls.Keys == m.calls.Keys + {w}
      && b.calls[id] == m.calls[id] && b.calls[w].op == SetBackends(m.calls[id].op.uuid, backends)
  {
    RunSnoc(s, acts, Invoke(w, SetBackends(Run(s, acts).calls[id].op.uuid, backends)));
    JoinStep(Run(s, acts), id, w, backends, attempt);
  }

  /** The write of w, as seen by a call id trying on the same key. */
  lemma WriteAfter(s: System, acts: seq<Action>, w: nat, id: nat, acts': seq<Action>)
    requires HasRead(Run(s, acts), w, 0) && acts' == acts + [Advance(w)]
    requires id in Run(s, acts).calls && id != w && Run(s, acts).calls[id].op.SetBackends?
    requires Run(s, acts).calls[id].op.uuid == Run(s, acts).calls[w].op.uuid && Run(s, acts).calls[id].pc.AtTxn?
    ensures
      var m, b := Run(s, acts), Run(s, acts');
      && CallsOk(b) && b.calls.Keys == m.calls.Keys && m.calls[id].op.uuid in b.kvs
      && b.kvs[m.calls[id].op.uuid].modRev == m.rev + 1
      && b.calls[id] == m.calls[id].(rivals := m.calls[id].rivals + {w})
  {
    RunSnoc(s, acts, Advance(w));
    WriteStep(Run(s, acts), w, 0);
  }

  lemma TurnedDownAfter(s: System, acts: seq<Action>, id: nat, attempt: nat, acts': seq<Action>)
    requires CallsOk(Run(s, acts)) && id in Run(s, acts).calls && Run(s, acts).calls[id].op.SetBackends?
    requires Run(s, acts).calls[id].op.uuid in Run(s, acts).kvs && acts' == acts + [Advance(id)]
    requires Run(s, acts).calls[id].pc.AtTxn? && Run(s, acts).calls[id].pc.attempt == attempt < 3
    requires Run(s, acts).calls[id].pc.modRev != Run(s, acts).kvs[Run(s, acts).calls[id].op.uuid].modRev
    ensures
      var m, b := Run(s, acts), Run(s, acts');
      && CallsOk(b) && b.calls.Keys == m.calls.Keys && b.calls[id].rivals == m.calls[id].rivals
      && b.calls[id].op == m.calls[id].op && b.calls[id].heard == m.calls[id].heard
      && (if attempt + 1 < 3 then Trying(b, id, attempt + 1) else b.calls[id].pc == Done(Conflict))
  {
    RunSnoc(s, acts, Advance(id));
    TurnedDown(Run(s, acts), id, attempt);
  }

  /** The call reads, another call sets the backends in between, and the call's write is turned down. */
  lemma LostRound(s: System, acts: seq<Action>, id: nat, w: nat, backends: seq<string>, attempt: nat)
    returns (acts': seq<Action>)
    requires Trying(Run(s, acts), id, attempt) && w !in Run(s, acts).calls && attempt < 3
    ensures LostOne(Run(s, acts), Run(s, acts'), id, w, attempt)
  {
    var u := Run(s, acts).calls[id].op.uuid;
    var acts1 := acts + [Advance(id)];
    ReadAfter(s, acts, id, attempt, acts1);
    ReadIsOld(Run(s, acts1), id, attempt);
    var acts2 := acts1 + [Invoke(w, SetBackends(u, backends))];
    JoinAfter(s, acts1, id, w, backends, attempt, acts2);
    var acts3 := acts2 + [Advance(w)];
    ReadAfter(s, acts2, w, 0, acts3);
    var acts4 := acts3 + [Advance(w)];
    WriteAfter(s, acts3, w, id, acts4);
    acts' := acts4 + [Advance(id)];
    TurnedDownAfter(s, acts4, id, attempt, acts');
  }

  lemma ReadIsOld(s: System, id: nat, attempt: nat)
    requires HasRead(s, id, attempt)
    ensures s.calls[id].pc.modRev <= s.rev
  {
    assert CallOk(s, id);
  }

  /** What the lost races with all of ws leave of the call. */
  ghost predicate LostAll(s: System, s': System, id: nat, ws: set<nat>, attempt: nat)
    requires id in s.calls
  {
    && CallsOk(s') && id in s'.calls && s'.calls.Keys == s.calls.Keys + ws
    && s'.calls[id].op == s.calls[id].op && s'.calls[id].heard == s.calls[id].heard
    && s'.calls[id].rivals == s.calls[id].rivals + ws
    && (if attempt < 3 then Trying(s', id, attempt) else s'.calls[id].pc == Done(Conflict))
  }

  lemma LostAgain(s: System, m: System, n: System, id: nat, ws: set<nat>, w: nat, attempt: nat)
    requires id in s.calls && LostAll(s, m, id, ws, attempt) && LostOne(m, n, id, w, attempt)
    ensures LostAll(s, n, id, ws + {w}, attempt + 1)
  {}

  /** One more lost race, after the ones of acts. */
  lemma LoseAgain(s: System, acts: seq<Action>, id: nat, ws: set<nat>, w: nat, ws': set<nat>, backends: seq<string>,
                  attempt: nat)
    returns (acts': seq<Action>)
    requires id in s.calls && LostAll(s, Run(s, acts), id, ws, attempt) && attempt < 3
    requires w !in s.calls && w !in ws && ws' == ws + {w}
    ensures LostAll(s, Run(s, acts'), id, ws', attempt + 1)
  {
    acts' := LostRound(s, acts, id, w, backends, attempt);
    var m, n := Run(s, acts), Run(s, acts');
    LostAgain(s, m, n, id, ws, w, attempt);
    assert LostAll(s, n, id, ws + {w}, attempt + 1);
  }

  lemma OneLost(s: System, id: nat, w: nat, backends: seq<string>) returns (acts: seq<Action>)
    requires Trying(s, id, 0) && w !in s.calls
    ensures LostAll(s, Run(s, acts), id, {w}, 1)
  {
    assert Run(s, []) == s;
    acts := LostRound(s, [], id, w, backends, 0);
    OneIsAll(s, Run(s, acts), id, w);
  }

  lemma OneIsAll(s: System, s': System, id: nat, w: nat)
    requires id in s.calls && LostOne(s, s', id, w, 0)
    ensures LostAll(s, s', id, {w}, 1)
  {}

  lemma TwoLost(s: System, id: nat, w1: nat, w2: nat, backends: seq<string>) returns (acts: seq<Action>)
    requires Trying(s, id, 0) && w1 !in s.calls && w2 !in s.calls && w1 != w2
    ensures LostAll(s, Run(s, acts), id, {w1, w2}, 2)
  {
    var first := OneLost(s, id, w1, backends);
    acts := LoseAgain(s, first, id, {w1}, w2, {w1, w2}, backends, 1);
  }

  /** Left alone at any attempt, the call stores its backends. */
  lemma AloneItStores(s: System, id: nat, attempt: nat)
    requires Trying(s, id, attempt)
    ensures
      var s' := Next(Next(s, Advance(id)), Advance(id));
      && id in s'.calls && s'.calls[id].pc.Done? && s'.calls[id].pc.outcome.Stored?
      && s'.calls[id].pc.outcome.lb.backends == s.calls[id].op.backends
  {
    ReadStep(s, id, attempt);
    WriteStep(Next(s, Advance(id)), id, attempt);
  }

  /** Two lost races are survived: left alone after them, the call stores its backends. */
  lemma TwoRivalsAreSurvived(s: System, id: nat, w1: nat, w2: nat, backends: seq<string>) returns (acts: seq<Action>)
    requires Trying(s, id, 0) && w1 !in s.calls && w2 !in s.calls && w1 != w2
    ensures LostAll(s, Run(s, acts), id, {w1, w2}, 2)
    ensures
      var s' := Next(Next(Run(s, acts), Advance(id)), Advance(id));
      && id in s'.calls && s'.calls[id].pc.Done? && s'.calls[id].pc.outcome.Stored?
      && s'.calls[id].pc.outcome.lb.backends == s.calls[id].op.backends
  {
    acts := TwoLost(s, id, w1, w2, backends);
    AloneItStores(Run(s, acts), id, 2);
  }

  /** From any state with a call at its first read, three other writers of the key can bring it to a conflict. */
  lemma ThreeRivalsCanConflict(s: System, id: nat, w1: nat, w2: nat, w3: nat, backends: seq<string>)
    returns (acts: seq<Action>)
    requires Trying(s, id, 0) && w1 !in s.calls && w2 !in s.calls && w3 !in s.calls && w1 != w2 && w1 != w3 && w2 != w3
    ensures
      var s' := Run(s, acts);
      && id in s'.calls && s'.calls[id].pc == Done(Conflict) && s'.calls.Keys == s.calls.Keys + {w1, w2, w3}
      && s'.calls[id].rivals == s.calls[id].rivals + {w1, w2, w3}
  {
    var first := TwoLost(s, id, w1, w2, backends);
    acts := LoseAgain(s, first, id, {w1, w2}, w3, {w1, w2, w3}, backends, 2);
  }
}
