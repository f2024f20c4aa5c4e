/**
 Leader election as a step machine: any number of candidates, each running the campaign loop, over etcd's
 election taken as an exclusive lock bound to a lease. Cancellation, lost sessions and lease expiry can happen at
 any point.
 */
module Leader {
  import opened Wrappers

  /** Where a candidate's loop is. InTerm is from onAcquire's call to onLost's. */
  datatype Phase = Idle | Campaigning | Won | InTerm | LostNotified | Resigned | Exited

  datatype Mark = Campaign | OnAcquire | OnLost

  datatype LeaderCtx = NoCtx | LiveCtx | CancelledCtx

  /**
   cancelled: the outer context is done. sessionUp: the client still believes in its session. leaseLost: the
   lease ran out on the server since the campaign was won. marks: the observable order of loop events.
   */
  datatype Candidate = Candidate(
    phase: Phase, cancelled: bool, sessionUp: bool, leaseLost: bool, leaderCtx: LeaderCtx, marks: seq<Mark>)

  datatype System = System(candidates: map<nat, Candidate>, holder: Option<nat>)

  datatype Action =
    | Begin(c: nat)           // loop head: exit when cancelled, else open a session and start a campaign
    | CampaignFails(c: nat)   // the campaign returns an error: close the session, go round again
    | Grant(c: nat)           // etcd gives the free lock to a campaigning candidate
    | Acquire(c: nat)         // build the leader context and call onAcquire
    | Watch(c: nat)           // the watcher goroutine cancels the leader context
    | NoticeLoss(c: nat)      // the wait ends, by session loss or cancellation: call onLost
    | Resign(c: nat, reached: bool)   // best effort: the request may not get through
    | Return(c: nat, reached: bool)   // deferred: cancel the leader context, close the session
    | SessionDone(c: nat)     // the client loses its session
    | LeaseExpires(c: nat)    // the server drops the lease, and with it the lock
    | Cancel(c: nat)          // the outer context is cancelled

  const FRESH := Candidate(Idle, false, false, false, NoCtx, [])

  function Set(s: System, c: nat, x: Candidate): System {
    s.(candidates := s.candidates[c := x])
  }

  function Release(s: System, c: nat): System {
    if s.holder == Some(c) then s.(holder := None) else s
  }

  function CancelCtx(k: LeaderCtx): LeaderCtx {
    if k.LiveCtx? then CancelledCtx else k
  }

  /** Actions that are not possible in s leave it as it is. */
  function Next(s: System, a: Action): System {
    if a.c !in s.candidates then s
    else
      var x := s.candidates[a.c];
      match a
      case Begin(c) =>
        if !x.phase.Idle? then s
        else if x.cancelled then Set(s, c, x.(phase := Exited))
        else Set(s, c, x.(phase := Campaigning, sessionUp := true, leaderCtx := NoCtx, marks := x.marks + [Campaign]))
      case CampaignFails(c) =>
        if x.phase.Campaigning? then Set(s, c, x.(phase := Idle, sessionUp := false)) else s
      case Grant(c) =>
        if x.phase.Campaigning? && s.holder.None? then
          Set(s, c, x.(phase := Won, leaseLost := false)).(holder := Some(c)) else s
      case Acquire(c) =>
        if x.phase.Won? then
          Set(s, c, x.(phase := InTerm, leaderCtx := if x.cancelled then CancelledCtx
            else LiveCtx, marks := x.marks + [OnAcquire]))
        else s
      case Watch(c) =>
        if x.phase.InTerm? && (x.cancelled || !x.sessionUp) then Set(s, c, x.(leaderCtx := CancelCtx(x.leaderCtx)))
          else s
      case NoticeLoss(c) =>
        if x.phase.InTerm? && (x.cancelled || !x.sessionUp) then
          Set(s, c, x.(phase := LostNotified, marks := x.marks + [OnLost]))
        else s
      case Resign(c, reached) =>
        if x.phase.LostNotified? then
          var s' := Set(s, c, x.(phase := Resigned));
          if reached then Release(s', c) else s'
        else s
      case Return(c, reached) =>
        if x.phase.Resigned? then
          var s' := Set(s, c, x.(phase := Idle, sessionUp := false, leaderCtx := CancelCtx(x.leaderCtx)));
          if reached then Release(s', c) else s'
        else s
      case SessionDone(c) => Set(s, c, x.(sessionUp := false))
      case LeaseExpires(c) => Release(Set(s, c, x.(leaseLost := true)), c)
      case Cancel(c) => Set(s, c, x.(cancelled := true, leaderCtx := CancelCtx(x.leaderCtx)))
  }

  function Run(s: System, acts: seq<Action>): System {
    if acts == [] then s else Next(Run(s, acts[..|acts| - 1]), acts[|acts| - 1])
  }

  ghost predicate Initial(s: System) {
    s.holder.None? && forall c :: c in s.candidates ==> s.candidates[c] == FRESH
  }

  // ---- Alternation ----

  /** A term is open: the last callback was onAcquire. */
  function TermOpen(marks: seq<Mark>): bool {
    if marks == [] then false
    else
      match marks[|marks| - 1]
      case OnAcquire => true
      case OnLost => false
      case Campaign => TermOpen(marks[..|marks| - 1])
  }

  /** onAcquire and onLost strictly alternate, onAcquire first; no campaign starts inside a term. */
  ghost predicate Alternates(marks: seq<Mark>) {
    forall i {:trigger AlternatesAt(marks, i)} :: 0 <= i < |marks| ==> AlternatesAt(marks, i)
  }

  /** onLost comes exactly when a term is open. */
  ghost predicate AlternatesAt(marks: seq<Mark>, i: nat)
    requires i < |marks|
  {
    TermOpen(marks[..i]) <==> marks[i].OnLost?
  }

  lemma AlternatesAppend(marks: seq<Mark>, m: Mark)
    requires Alternates(marks) && (TermOpen(marks) <==> m.OnLost?)
    ensures Alternates(marks + [m]) && (TermOpen(marks + [m]) <==> m.OnAcquire?)
  {
    var ms := marks + [m];
    forall i | 0 <= i < |ms| ensures AlternatesAt(ms, i) {
      assert ms[..i] == marks[..i];
      if i == |marks| {
        assert marks[..i] == marks;
      } else {
        assert AlternatesAt(marks, i);
      }
    }
    assert ms[..|ms| - 1] == marks;
  }

  // ---- The invariant ----

  ghost predicate CandidateOk(s: System, c: nat)
    requires c in s.candidates
  {
    var x := s.candidates[c];
    && Alternates(x.marks) && (TermOpen(x.marks) <==> x.phase.InTerm?)
    && (x.leaderCtx.LiveCtx? ==> x.phase.InTerm? || x.phase.LostNotified? || x.phase.Resigned?)
    && (x.cancelled ==> !x.leaderCtx.LiveCtx?)
    && (x.phase.Won? || x.phase.InTerm? || x.phase.LostNotified? ==> s.holder == Some(c) || x.leaseLost)
    && (s.holder == Some(c) ==> !x.leaseLost)
  }

  ghost predicate Inv(s: System) {
    && (forall c {:trigger CandidateOk(s, c)} :: c in s.candidates ==> CandidateOk(s, c))
    && (s.holder.Some? ==> s.holder.value in s.candidates)
  }

  /** The candidate that acts: its log grows by one allowed mark or none. */
  lemma NextKeepsActor(s: System, a: Action)
    requires a.c in s.candidates && CandidateOk(s, a.c)
    ensures CandidateOk(Next(s, a), a.c)
  {
    var x := s.candidates[a.c];
    match a
    case Begin(c) => if x.phase.Idle? && !x.cancelled { AlternatesAppend(x.marks, Campaign); }
    case Acquire(c) => if x.phase.Won? { AlternatesAppend(x.marks, OnAcquire); }
    case NoticeLoss(c) => if x.phase.InTerm? { AlternatesAppend(x.marks, OnLost); }
    case _ =>
  }

  /** Every other candidate is untouched, and keeps the lock if it has it. */
  lemma NextKeepsOthers(s: System, a: Action, c: nat)
    requires c in s.candidates && CandidateOk(s, c) && a.c != c
    ensures c in Next(s, a).candidates && CandidateOk(Next(s, a), c)
  {
    assert Next(s, a).candidates[c] == s.candidates[c];
    assert s.holder == Some(c) ==> Next(s, a).holder == Some(c);
  }

  lemma {:induction false} RunKeepsInv(s: System, acts: seq<Action>)
    requires Initial(s)
    ensures Inv(Run(s, acts)) && Run(s, acts).candidates.Keys == s.candidates.Keys
  {
    if acts == [] {
      forall c | c in s.candidates ensures CandidateOk(s, c) {
        assert s.candidates[c] == FRESH;
      }
    } else {
      var init, a := acts[..|acts| - 1], acts[|acts| - 1];
      RunKeepsInv(s, init);
      var m := Run(s, init);
      forall c | c in Next(m, a).candidates ensures CandidateOk(Next(m, a), c) {
        assert CandidateOk(m, c);
        if a.c == c {
          NextKeepsActor(m, a);
        } else {
          NextKeepsOthers(m, a, c);
        }
      }
    }
  }

  // ---- The properties ----

  /**
   In every run, each candidate's onAcquire and onLost strictly alternate, and its leader context is dead whenever
   it is not in a term or just out of one; so a new campaign never starts under a live context.
   */
  lemma TermsAlternate(s: System, acts: seq<Action>, c: nat)
    requires Initial(s) && c in s.candidates
    ensures
      var s' := Run(s, acts);
      && c in s'.candidates && Alternates(s'.candidates[c].marks)
      && (s'.candidates[c].leaderCtx.LiveCtx? ==> s'.candidates[c].phase in {InTerm, LostNotified, Resigned})
  {
    RunKeepsInv(s, acts);
    assert CandidateOk(Run(s, acts), c);
  }

  /** In every run, two candidates are in a term at once only if one of them lost its lease during its term. */
  lemma OverlapNeedsLostLease(s: System, acts: seq<Action>, c: nat, d: nat)
    requires Initial(s) && c != d && c in s.candidates && d in s.candidates
    requires var s' := Run(s, acts);
      c in s'.candidates && d in s'.candidates && s'.candidates[c].phase.InTerm? && s'.candidates[d].phase.InTerm?
    ensures var s' := Run(s, acts); s'.candidates[c].leaseLost || s'.candidates[d].leaseLost
  {
    RunKeepsInv(s, acts);
    assert CandidateOk(Run(s, acts), c) && CandidateOk(Run(s, acts), d);
  }

  /** No lease runs out while its candidate is between winning and onLost: terms end by cancellation or session loss. */
  predicate LeasesLast(s: System, acts: seq<Action>) {
    acts == [] ||
    (LeasesLast(s, acts[..|acts| - 1]) &&
     var m, a := Run(s, acts[..|acts| - 1]), acts[|acts| - 1];
     a.LeaseExpires? && a.c in m.candidates ==> !m.candidates[a.c].phase.Won? && !m.candidates[a.c].phase.InTerm?)
  }

  lemma {:induction false} LeasesHeldInTerm(s: System, acts: seq<Action>, c: nat)
    requires Initial(s) && c in s.candidates && LeasesLast(s, acts)
    ensures
      var s' := Run(s, acts);
      c in s'.candidates && (s'.candidates[c].phase.Won? || s'.candidates[c].phase.InTerm? ==>
        !s'.candidates[c].leaseLost)
  {
    if acts != [] {
      LeasesHeldInTerm(s, acts[..|acts| - 1], c);
    }
  }

  /**
   When no lease runs out inside a term, terms of different candidates never overlap: onLost is called before the
   lock is given up.
   */
  lemma TermsDisjoint(s: System, acts: seq<Action>, c: nat, d: nat)
    requires Initial(s) && LeasesLast(s, acts) && c != d && c in s.candidates && d in s.candidates
    ensures var s' := Run(s, acts);
      c in s'.candidates && d in s'.candidates && !(s'.candidates[c].phase.InTerm? && s'.candidates[d].phase.InTerm?)
  {
    LeasesHeldInTerm(s, acts, c);
    LeasesHeldInTerm(s, acts, d);
    var s' := Run(s, acts);
    if s'.candidates[c].phase.InTerm? && s'.candidates[d].phase.InTerm? {
      OverlapNeedsLostLease(s, acts, c, d);
    }
  }

  // ---- Progress: terms start, end and make room ----

  /** A step touches no candidate but its own, and moves the lock only away from its own candidate, or to it. */
  lemma OthersUntouched(s: System, a: Action, d: nat)
    requires d in s.candidates && a.c != d
    ensures d in Next(s, a).candidates && Next(s, a).candidates[d] == s.candidates[d]
    ensures Next(s, a).holder == Some(d) <==> s.holder == Some(d)
  {}

  /** From the loop head on a free lock: a campaign, the grant, and the term opens with a live context. */
  lemma TermStarts(s: System, c: nat)
    requires c in s.candidates && s.candidates[c].phase.Idle? && !s.candidates[c].cancelled && s.holder.None?
    ensures
      var x := s.candidates[c];
      var s1 := Next(s, Begin(c));
      var s2 := Next(s1, Grant(c));
      var s3 := Next(s2, Acquire(c));
      && s1.candidates[c].phase.Campaigning? && s1.candidates[c].sessionUp && s1.holder.None?
      && s1.candidates[c].marks == x.marks + [Campaign]
      && s2.holder == Some(c) && !s2.candidates[c].leaseLost && s2.candidates[c].marks == s1.candidates[c].marks
      && s3.holder == Some(c) && s3.candidates[c].phase.InTerm? && s3.candidates[c].leaderCtx.LiveCtx?
      && s3.candidates[c].marks == x.marks + [Campaign, OnAcquire]
  {
    var s1 := Next(s, Begin(c));
    assert s1.candidates[c].marks == s.candidates[c].marks + [Campaign];
    assert s.candidates[c].marks + [Campaign, OnAcquire] == s.candidates[c].marks + [Campaign] + [OnAcquire];
  }

  /** The candidate is told that its term is over: its context or its session is gone. */
  predicate TermOver(x: Candidate) {
    x.cancelled || !x.sessionUp
  }

  /**
   How a term ends once the context or the session is gone: onLost is the next mark; then the lock is given up if the
   request gets through, and not before; then the leader context is dead and the candidate is back at the loop head, or
   through, with the lock free, if it had it and one of the two requests got through.
   */
  lemma TermEnds(s: System, c: nat, resigned: bool, closed: bool)
    requires c in s.candidates && s.candidates[c].phase.InTerm? && TermOver(s.candidates[c])
    ensures
      var x := s.candidates[c];
      var s1 := Next(s, NoticeLoss(c));
      var s2 := Next(s1, Resign(c, resigned));
      var s3 := Next(s2, Return(c, closed));
      && s1.candidates[c].phase.LostNotified? && s1.candidates[c].marks == x.marks + [OnLost] && s1.holder == s.holder
      && s2.candidates[c].phase.Resigned? && s2.candidates[c].marks == x.marks + [OnLost]
      && s2.holder == (if resigned && s.holder == Some(c) then None else s.holder)
      && s3.candidates[c].phase.Idle? && s3.candidates[c].marks == x.marks + [OnLost] && !s3.candidates[c].sessionUp
      && !s3.candidates[c].leaderCtx.LiveCtx?
      && s3.holder == (if (resigned || closed) && s.holder == Some(c) then None else s.holder)
  {}

  /** At the loop head a cancelled candidate is through for good, and any other one campaigns again. */
  lemma LoopHead(s: System, c: nat)
    requires c in s.candidates && s.candidates[c].phase.Idle?
    ensures
      var x, y := s.candidates[c], Next(s, Begin(c)).candidates[c];
      if x.cancelled then y == x.(phase := Exited)
      else y.phase.Campaigning? && y.sessionUp && y.marks == x.marks + [Campaign] && y.leaderCtx.NoCtx?
    ensures Next(s, Begin(c)).holder == s.holder
  {}

  lemma ExitIsFinal(s: System, a: Action, c: nat)
    requires c in s.candidates && s.candidates[c].phase.Exited?
    ensures c in Next(s, a).candidates && Next(s, a).candidates[c].phase.Exited?
    ensures Next(s, a).candidates[c].marks == s.candidates[c].marks
  {}

  /** A campaign that fails closes its session, leaves no mark, and goes back to the loop head. */
  lemma CampaignFailure(s: System, c: nat)
    requires c in s.candidates && s.candidates[c].phase.Campaigning?
    ensures
      var x, y := s.candidates[c], Next(s, CampaignFails(c)).candidates[c];
      y.phase.Idle? && !y.sessionUp && y.marks == x.marks && Next(s, CampaignFails(c)).holder == s.holder
  {}

  /** The watcher kills the leader context exactly when the term is over, and does nothing else. */
  lemma WatcherKills(s: System, c: nat)
    requires c in s.candidates && s.candidates[c].phase.InTerm? && s.candidates[c].leaderCtx.LiveCtx?
    ensures
      var x, y := s.candidates[c], Next(s, Watch(c)).candidates[c];
      && (y.leaderCtx.CancelledCtx? <==> TermOver(x)) && y.phase.InTerm? && y.marks == x.marks
      && Next(s, Watch(c)).holder == s.holder
  {}

  /** A term can be left by some single step if and only if it is over; being told of it is what ends it. */
  lemma LeavesExactly(s: System, c: nat)
    requires c in s.candidates && s.candidates[c].phase.InTerm?
    ensures (exists a :: LeavesTerm(s, a, c)) <==> TermOver(s.candidates[c])
    ensures forall a :: LeavesTerm(s, a, c) ==>
      Next(s, a).candidates[c].marks == s.candidates[c].marks + [OnLost] && Next(s, a).holder == s.holder
  {
    if TermOver(s.candidates[c]) { assert LeavesTerm(s, NoticeLoss(c), c); }
  }

  ghost predicate LeavesTerm(s: System, a: Action, c: nat)
    requires c in s.candidates
  {
    c in Next(s, a).candidates && !Next(s, a).candidates[c].phase.InTerm?
  }

  /** Losing the session or the outer context ends the term: the four steps that follow are open to the candidate. */
  lemma LossEndsTerm(s: System, a: Action, c: nat)
    requires c in s.candidates && s.candidates[c].phase.InTerm? && (a == SessionDone(c) || a == Cancel(c))
    ensures c in Next(s, a).candidates && Next(s, a).candidates[c].phase.InTerm? && TermOver(Next(s, a).candidates[c])
    ensures a.Cancel? ==> !Next(s, a).candidates[c].leaderCtx.LiveCtx?
    ensures Next(s, a).holder == s.holder && Next(s, a).candidates[c].marks == s.candidates[c].marks
  {}

  /**
   Hand-over: a term that is over ends, and when a request to give up the lock got through, a waiting candidate's term
   starts, after the first one's onLost.
   */
  lemma HandOver(s: System, c: nat, d: nat, resigned: bool, closed: bool)
    requires Inv(s) && c in s.candidates && d in s.candidates && c != d && s.holder == Some(c)
    requires s.candidates[c].phase.InTerm? && TermOver(s.candidates[c]) && (resigned || closed)
    requires s.candidates[d].phase.Idle? && !s.candidates[d].cancelled
    ensures
      var m := Next(Next(Next(s, NoticeLoss(c)), Resign(c, resigned)), Return(c, closed));
      var n := Next(Next(Next(m, Begin(d)), Grant(d)), Acquire(d));
      && n.candidates[c].phase.Idle? && n.candidates[c].marks == s.candidates[c].marks + [OnLost]
      && n.candidates[d].phase.InTerm? && n.holder == Some(d)
  {
    TermEnds(s, c, resigned, closed);
    var s1 := Next(s, NoticeLoss(c));
    var s2 := Next(s1, Resign(c, resigned));
    var m := Next(s2, Return(c, closed));
    OthersUntouched(s, NoticeLoss(c), d);
    OthersUntouched(s1, Resign(c, resigned), d);
    OthersUntouched(s2, Return(c, closed), d);
    TermStarts(m, d);
    OthersUntouched(m, Begin(d), c);
    OthersUntouched(Next(m, Begin(d)), Grant(d), c);
    OthersUntouched(Next(Next(m, Begin(d)), Grant(d)), Acquire(d), c);
  }

  // ---- Progress in every schedule ----

  /** The way out of a term has begun, or has to. */
  predicate Leaving(x: Candidate) {
    (x.phase.InTerm? && TermOver(x)) || x.phase.LostNotified? || x.phase.Resigned?
  }

  /** The step a candidate on its way out takes next: be told, give up the lock, return to the loop head. */
  predicate TakesTurn(a: Action, c: nat, phase: Phase) {
    && a.c == c
    && match phase
       case InTerm => a.NoticeLoss?
       case LostNotified => a.Resign?
       case Resigned => a.Return?
       case _ => false
  }

  /** Nothing but its own next step moves a candidate on its way out, and that step always does. */
  lemma TurnExactly(s: System, a: Action, c: nat)
    requires c in s.candidates && Leaving(s.candidates[c])
    ensures c in Next(s, a).candidates
    ensures
      var x, y := s.candidates[c], Next(s, a).candidates[c];
      && (TakesTurn(a, c, x.phase) <==> y.phase != x.phase)
      && (y.phase == x.phase ==> Leaving(y) && y.marks == x.marks)
      && (y.phase != x.phase ==>
           y.marks == (if x.phase.InTerm? then x.marks + [OnLost] else x.marks)
           && match x.phase
              case InTerm => y.phase.LostNotified?
              case LostNotified => y.phase.Resigned?
              case _ => y.phase.Idle? && !y.sessionUp && !y.leaderCtx.LiveCtx?)
  {}

  lemma RunTo(s: System, acts: seq<Action>, j: nat)
    requires j < |acts|
    ensures Run(s, acts[..j + 1]) == Next(Run(s, acts[..j]), acts[j])
  {
    assert acts[..j + 1][..j] == acts[..j];
  }

  /** Between i and j a candidate on its way out waits for its turn; then the turn at j moves it. */
  lemma {:induction false} NextTurn(s: System, acts: seq<Action>, c: nat, i: nat, j: nat) returns (m: nat)
    requires i <= j < |acts| && c in Run(s, acts[..i]).candidates && Leaving(Run(s, acts[..i]).candidates[c])
    requires TakesTurn(acts[j], c, Run(s, acts[..i]).candidates[c].phase)
    ensures i < m <= j + 1 && c in Run(s, acts[..m]).candidates
    ensures
      var x, y := Run(s, acts[..i]).candidates[c], Run(s, acts[..m]).candidates[c];
      && y.marks == (if x.phase.InTerm? then x.marks + [OnLost] else x.marks)
      && match x.phase
         case InTerm => y.phase.LostNotified?
         case LostNotified => y.phase.Resigned?
         case _ => y.phase.Idle? && !y.sessionUp && !y.leaderCtx.LiveCtx?
    decreases j - i
  {
    RunTo(s, acts, i);
    TurnExactly(Run(s, acts[..i]), acts[i], c);
    if TakesTurn(acts[i], c, Run(s, acts[..i]).candidates[c].phase) {
      m := i + 1;
    } else {
      m := NextTurn(s, acts, c, i + 1, j);
    }
  }

  /**
   Progress in every schedule, whatever the others and the environment do in between: a candidate whose term is over and
   that gets its three turns in order has been told, and has come back to the loop head, by the last of them.
   */
  lemma FairScheduleEndsTerm(s: System, acts: seq<Action>, c: nat, i: nat, j: nat, k: nat) returns (n: nat)
    requires c in s.candidates && s.candidates[c].phase.InTerm? && TermOver(s.candidates[c]) && i < j < k < |acts|
    requires acts[i] == NoticeLoss(c) && acts[j].Resign? && acts[k].Return? && acts[j].c == acts[k].c == c
    ensures n <= k + 1 && c in Run(s, acts[..n]).candidates
    ensures
      var y := Run(s, acts[..n]).candidates[c];
      && y.phase.Idle? && y.marks == s.candidates[c].marks + [OnLost] && !y.sessionUp && !y.leaderCtx.LiveCtx?
  {
    assert Run(s, acts[..0]) == s;
    n := NextTurn(s, acts, c, 0, i);
    n := NextTurn(s, acts, c, n, j);
    n := NextTurn(s, acts, c, n, k);
  }

  /** Without its turn it stays in its term, told nothing, however long the schedule. */
  lemma {:induction false} UntoldStays(s: System, acts: seq<Action>, c: nat)
    requires c in s.candidates && s.candidates[c].phase.InTerm? && TermOver(s.candidates[c])
    requires forall i :: 0 <= i < |acts| ==> acts[i] != NoticeLoss(c)
    ensures
      var s' := Run(s, acts);
      && c in s'.candidates && s'.candidates[c].phase.InTerm? && TermOver(s'.candidates[c])
      && s'.candidates[c].marks == s.candidates[c].marks
  {
    if acts != [] {
      var init := acts[..|acts| - 1];
      UntoldStays(s, init, c);
      TurnExactly(Run(s, init), acts[|acts| - 1], c);
    }
  }

  // ---- Exactly when terms can overlap ----

  ghost predicate NoneOf(acts: seq<Action>, c: nat) {
    forall i :: 0 <= i < |acts| ==> acts[i].c != c
  }

  ghost predicate BothInTerm(s: System, c: nat, d: nat) {
    c in s.candidates && d in s.candidates && s.candidates[c].phase.InTerm? && s.candidates[d].phase.InTerm?
  }

  /** Some schedule in which c does nothing puts c and d in a term at once. */
  ghost predicate CanOverlap(s: System, c: nat, d: nat) {
    exists acts :: NoneOf(acts, c) && BothInTerm(Run(s, acts), c, d)
  }

  lemma RunSnoc(s: System, acts: seq<Action>, a: Action)
    ensures Run(s, acts + [a]) == Next(Run(s, acts), a)
  {
    assert (acts + [a])[..|acts|] == acts;
  }

  /** The lock can be had: at worst its holder's lease has to run out. */
  lemma FreeTheLock(s: System, c: nat) returns (acts: seq<Action>)
    requires Inv(s) && s.holder != Some(c)
    ensures NoneOf(acts, c) && Run(s, acts).holder.None? && Run(s, acts).candidates.Keys == s.candidates.Keys
    ensures forall d :: d in s.candidates ==>
      Run(s, acts).candidates[d].phase == s.candidates[d].phase &&
        Run(s, acts).candidates[d].cancelled == s.candidates[d].cancelled
  {
    if s.holder.None? {
      acts := [];
    } else {
      RunSnoc(s, [], LeaseExpires(s.holder.value));
      acts := [] + [LeaseExpires(s.holder.value)];
    }
  }

  lemma TakeTheLock(s: System, acts: seq<Action>, c: nat, d: nat) returns (acts': seq<Action>)
    requires NoneOf(acts, c) && c != d && c in Run(s, acts).candidates && d in Run(s, acts).candidates
    requires Run(s, acts).holder.None? && Run(s, acts).candidates[c].phase.InTerm?
    requires Run(s, acts).candidates[d].phase.Idle? && !Run(s, acts).candidates[d].cancelled
    ensures NoneOf(acts', c) && BothInTerm(Run(s, acts'), c, d)
  {
    RunSnoc(s, acts, Begin(d));
    RunSnoc(s, acts + [Begin(d)], Grant(d));
    RunSnoc(s, acts + [Begin(d)] + [Grant(d)], Acquire(d));
    acts' := acts + [Begin(d)] + [Grant(d)] + [Acquire(d)];
  }

  /** c's term stands on a live lease, and d has not won. */
  ghost predicate HeldAgainst(s: System, c: nat, d: nat) {
    && c in s.candidates && d in s.candidates && c != d && s.holder == Some(c)
    && !s.candidates[d].phase.Won? && !s.candidates[d].phase.InTerm?
  }

  lemma {:induction false} HeldStaysHeld(s: System, acts: seq<Action>, c: nat, d: nat)
    requires HeldAgainst(s, c, d) && NoneOf(acts, c)
    ensures HeldAgainst(Run(s, acts), c, d)
  {
    if acts != [] {
      HeldStaysHeld(s, acts[..|acts| - 1], c, d);
    }
  }

  /**
   The exact condition, for every reachable state with c in a term and d waiting to campaign: the two can be in a term
   at once, without c doing anything, if and only if c has lost its lease and not noticed.
   */
  lemma OverlapExactly(s: System, c: nat, d: nat)
    requires Inv(s)
    requires c in s.candidates && s.candidates[c].phase.InTerm?
    requires d in s.candidates && s.candidates[d].phase.Idle? && !s.candidates[d].cancelled
    ensures CanOverlap(s, c, d) <==> s.candidates[c].leaseLost
  {
    assert CandidateOk(s, c);
    if s.candidates[c].leaseLost {
      var acts := FreeTheLock(s, c);
      var acts' := TakeTheLock(s, acts, c, d);
    } else {
      forall acts | NoneOf(acts, c) ensures !BothInTerm(Run(s, acts), c, d) {
        HeldStaysHeld(s, acts, c, d);
      }
    }
  }
}
